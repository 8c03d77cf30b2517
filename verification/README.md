# Verified models of Valgrind's profiling tools

This project models algorithms of Valgrind 3.18.1, as kept in the repository, and of the repository's own LLVM
leak detector, and proves what they keep and compute.

- **Cachegrind's profile merger** (`cg_merge.c`): the mutable AVL map with its iterator on a fixed stack, and the
  reader, writer and merger of profile files.
- **Cachegrind's instrumentation pass and cache simulator** (`cg_main.c`, `cg_sim.c`): events are queued, merged and
  flushed as helper calls; running those calls is compared with handling each event by itself.
- **Callgrind's cache models** (`sim.c`): the write-back model with dirty bits in tags and the model with slot numbers
  in tags, both compared with a plain LRU list.
- **Callgrind's shadow call stack** (`callstack.c`, `context.c`, `threads.c`, `bbcc.c`): calls, returns, underflows,
  nested signal handlers, thread switches.
- **Smaller algorithms**: Adler-32 with deferred modulo and the frames of the debuginfo server, the three-way quicksort
  of `dump.c`, the deduplicating pool, the table of execution contexts, the table of call arcs, cost vectors and event
  sets, inclusive call costs across dumps, and path enumeration in `LeakDetector.cpp`.

Each algorithm has a layer of functions on values, on which the laws are proved, and the code that changes things in
place (classes over nodes, arrays and maps, and methods with loops) is proved to do exactly what those functions say.

| part | files |
|---|---|
| AVL map | `AvlTree`, `AvlMap` (laws), `AvlReach` (which trees occur), `WordFm` (nodes), `WordFmIter` (iteration), `WordFmApi` (interface) |
| caches and instrumentation | `CacheSim`, `CacheArray`, `InstrumentModel`, `InstrumentRef`, `InstrumentAccess` (what is posted, said of the statements), `CacheCounts` (what the counters count), `Instrument` |
| further cache models | `WriteBack`, `WriteBackLru`, `CacheUse`, `TagArrays` |
| shadow call stack | `ShadowModel`, `ShadowProof`, `ShadowRuns`, `ShadowCounts`, `ShadowSignals`, `ShadowReturns` (calls and their returns), `ShadowToggle` (collection), `ShadowCosts`, `ShadowExamples`, `ShadowStack`, `ShadowThreads` |
| profile files | `ProfileText`, `ProfileModel`, `ProfileSums`, `ProfileMerge`, `ProfileRound`, `ProfileParse` (what a file means), `ProfileFormat` (values and laws), `ProfileLines`, `ProfileFiles`, `ProfileFile` (maps and blocks of counts on the heap), `MergeFiles` (the whole program) |
| sorting, checksums | `QuickSort`, `QuickSortArray`, `Adler`, `AdlerBuffer`, `Frames` |
| hash-consing and pools | `HashChains`, `ExeContext`, `JccTable`, `DedupPool` |
| costs, paths | `Events`, `CallCosts`, `DiscoverPaths` |

## Where the code does not do what one would expect

- The comment at `cg_merge.c:992` says that 2^32 entries can be iterated over. An iteration fits the stack of 32 nodes
  exactly if the tree is at most 32 deep to the left, where a step to the right costs nothing
  (`WordFmIter.IterationFits`). That holds for every map with fewer than 9227464 bindings (`WordFmIter.SmallFits`);
  `WordFmApi.OverflowingFM` makes one with that many, by adding one key after the other to a new map, for which a push
  finds the stack full (`WordFmIter.LimitIsTight`). Every balanced search tree can be made in this way
  (`AvlReach.ReachedExactly`).
- The quicksort of `dump.c` leaves entries out of order when a partition gathers more entries equal to the pivot than
  there are smaller ones, some being smaller. `QuickSort.SortsIfFair` shows that this is exactly when it fails;
  `QuickSort.NotSorted` is an input of seven entries.
- Active counts of functions can become wrong. Three things do it, each exactly under a condition that can be read off
  the state before: the repair of an underflow, if the block executed last is not of the function on top of the function
  stack (`ShadowCounts.UnderflowExact`); the end of a handler, if the function it is left in is not its first
  (`ShadowCounts.PostSignalExact`); and the correction of a recursion level of zero (`ShadowCounts.ChooseExact`). Each
  shifts two counts by one, or one count; after any run the counts are right exactly if these shifts cancel
  (`ShadowCounts.RunExact`), and the first wrong count comes with the first step whose own shifts do not
  (`ShadowCounts.FirstWrong`). `ShadowExamples.CountsGoWrong` is a run in which f is counted 2^32 - 1 times, after which
  the next call of f finds a recursion level of zero although instrumentation was never switched.
  `ShadowExamples.LeftElsewhere` is one in which a handler ends in a function that is not its first.
- A return that leaves two nested signal handlers at once leaves the two stacks out of step; `ShadowProof.InvPop` has
  the exact condition. Such a return keeps the counts right exactly if the first handler is in its first function and
  none of the handlers whose markers are cut off has executed anything (`ShadowCounts.PopAcross`; `ShadowCounts.PopExact`
  is the same for every return). `ShadowExamples.ReturnThroughTwo` is a run in which a function stays counted after it.
- The loop that enlarges the call stack stops too early for entries whose number is the size times 2, 4, 8 and so on
  (`ShadowStack.RoomExact`). It is never called for such an entry.
- A call of a function that is on top of the function stack already, made by the first function of a thread or handler, is
  not matched by its return, nor is a skipped call made there: the return is taken for one whose call was not seen, and the
  call stays on the call stack. `ShadowReturns.CallBracket` and `ShadowReturns.DeepIff` have the exact condition.
- A profile whose numbers reach 2^63 is written with negative numbers and cannot be read again, nor can one without
  events (`ProfileRound.RoundTrip`, in both directions).
- The tag mask of the write-back model has 32 bits and an empty place looks like tag 0, so the cache is an LRU list of
  tags rather than of lines (`WriteBackLru.WriteBackIsTagLru`, for all addresses). It hits and misses like a plain cache
  exactly if no two lines in use are the same modulo 2^32, none but line 0 is, modulo 2^32, the first of its set, and in
  a cache of one set no two are neighbours (`WriteBackLru.WriteBackIsLru`). `WriteBackLru.HighAddressHits`,
  `WriteBackLru.LowAddressHits` and `WriteBackLru.NeighbourMisses` are inputs for the three failures.
- The deduplicating pool finds an element by its number only if the pool itself is aligned, although the numbers are
  right anywhere (`DedupPool.NumbersAndAddresses`).
- An event set that was built before one of its groups was registered stays out of date (`Events.EventSets.Register`).
- The comment at `jumps.c:139` says that the table is enlarged beyond 80%; the test that is made is for nine tenths.

## Model

| member | source | states |
|---|---|---|
| `AvlTree.Insert` | proj1/valgrind-3.18.1/cachegrind/cg_merge.c:1062-1160 | insertion keeps every stored balance equal to the difference of heights, in -1..1, and reports growth exactly when the height has grown |
| `AvlTree.Remove` | proj1/valgrind-3.18.1/cachegrind/cg_merge.c:1163-1249 | removal does the same for shrinking; removing from the higher side leaves the top node where it is |
| `AvlTree.RemoveRoot` | proj1/valgrind-3.18.1/cachegrind/cg_merge.c:1253-1286 | replacing the root keeps the balances and reports shrinking exactly |
| `AvlTree.DoubleRotation` | proj1/valgrind-3.18.1/cachegrind/cg_merge.c:1028-1048 | both double rotations with their balance repair give a balanced tree of the same bindings |
| `AvlMap.InsertIsPut` | proj1/valgrind-3.18.1/cachegrind/cg_merge.c:1062-1160 | the bindings in order become those with the key bound at its place, and the old value is handed back |
| `AvlMap.RemoveIsDel` | proj1/valgrind-3.18.1/cachegrind/cg_merge.c:1163-1249 | removal takes out the one binding and nothing else |
| `AvlMap.RemoveRootIsSplice` | proj1/valgrind-3.18.1/cachegrind/cg_merge.c:1253-1286 | without its root a tree holds what its two sides hold, in order |
| `AvlMap.RootLeft` | proj1/valgrind-3.18.1/cachegrind/cg_merge.c:1264-1286 | a root that leans left is replaced by the last node of its left side without being rotated |
| `AvlMap.RootRight` | proj1/valgrind-3.18.1/cachegrind/cg_merge.c:1264-1286 | otherwise by the first node of its right side, without being rotated |
| `AvlMap.PutIsUpdate` | proj1/valgrind-3.18.1/cachegrind/cg_merge.c:1448-1461 | binding in the ordered list is update of the map |
| `AvlMap.DelIsRemove` | proj1/valgrind-3.18.1/cachegrind/cg_merge.c:1465-1477 | deleting from the ordered list is removal from the map |
| `AvlMap.HeightBound` | proj1/valgrind-3.18.1/cachegrind/cg_merge.c:1314-1322 | a balanced tree of height h has at least F(h+2)-1 bindings |
| `WordFm.InsertWrk` | proj1/valgrind-3.18.1/cachegrind/cg_merge.c:1062-1160 | insertion by rotating nodes in place gives the specified tree, on the old nodes and the new one |
| `WordFm.RemoveWrk` | proj1/valgrind-3.18.1/cachegrind/cg_merge.c:1163-1249 | removal in place gives the specified tree and leaves the value of the node taken out |
| `WordFm.RemoveRootWrk` | proj1/valgrind-3.18.1/cachegrind/cg_merge.c:1253-1286 | replacement of the root in place gives the specified tree |
| `WordFm.FindNode` | proj1/valgrind-3.18.1/cachegrind/cg_merge.c:1288-1300 | the search finds the node that holds the key, or none |
| `WordFm.Dopy` | proj1/valgrind-3.18.1/cachegrind/cg_merge.c:1341-1390 | a deep copy has new nodes only, and fails exactly if a callback does |
| `WordFmApi.WordFM.constructor` | proj1/valgrind-3.18.1/cachegrind/cg_merge.c:1395-1416 | a new map is empty |
| `WordFmApi.WordFM.AddToFM` | proj1/valgrind-3.18.1/cachegrind/cg_merge.c:1448-1461 | the map is updated at the key, the tree stays ordered and balanced |
| `WordFmApi.WordFM.DelFromFM` | proj1/valgrind-3.18.1/cachegrind/cg_merge.c:1465-1477 | the key is removed, and whether and to what it was bound is returned |
| `WordFmApi.WordFM.LookupFM` | proj1/valgrind-3.18.1/cachegrind/cg_merge.c:1480-1489 | the binding in the map is found, or that there is none |
| `WordFmApi.WordFM.SizeFM` | proj1/valgrind-3.18.1/cachegrind/cg_merge.c:1492-1496 | the number of bindings |
| `WordFmApi.WordFM.InitIterFM` | proj1/valgrind-3.18.1/cachegrind/cg_merge.c:1499-1506 | afterwards all bindings are still to come, in order |
| `WordFmApi.WordFM.NextIterFM` | proj1/valgrind-3.18.1/cachegrind/cg_merge.c:1509-1541 | each call delivers exactly the next binding in key order, for every tree at most 32 deep to the left; by `WordFmIter.IterationFits` the others trip the source's own assertion |
| `WordFmApi.WordFM.DopyFM` | proj1/valgrind-3.18.1/cachegrind/cg_merge.c:1548-1571 | the copy shares no node with the original, which is unchanged |
| `WordFmIter.IterationFits` | proj1/valgrind-3.18.1/cachegrind/cg_merge.c:1303-1338 | an iteration fits a stack of a given size if and only if the tree is no deeper to the left |
| `WordFmIter.SmallFits` | proj1/valgrind-3.18.1/cachegrind/cg_merge.c:992-1002 | fewer than 9227464 bindings fit the stack of 32 nodes |
| `WordFmIter.IterLimit` | proj1/valgrind-3.18.1/cachegrind/cg_merge.c:992 | the limit in figures |
| `WordFmIter.LeaningTree` | proj1/valgrind-3.18.1/cachegrind/cg_merge.c:1314-1322 | the tree that leans left everywhere is an ordered, balanced one with distinct keys, as few bindings as its height allows, and as deep to the left as it is high |
| `WordFmIter.LimitIsTight` | proj1/valgrind-3.18.1/cachegrind/cg_merge.c:992-1002 | a search tree with exactly 9227464 bindings whose iteration does not fit the stack |
| `WordFmApi.OverflowingFM` | proj1/valgrind-3.18.1/cachegrind/cg_merge.c:1448-1461 | a WordFM for which a push finds the stack full, made by adding 9227464 keys to a new one in turn |
| `AvlReach.AllReached` | proj1/valgrind-3.18.1/cachegrind/cg_merge.c:1062-1160 | every balanced search tree comes from inserting its own bindings, level by level, into the empty tree |
| `AvlReach.ReachedExactly` | proj1/valgrind-3.18.1/cachegrind/cg_merge.c:1062-1160 | insertions into the empty tree lead to a tree if and only if it is an ordered and balanced one |
| `AvlReach.BareInsert` | proj1/valgrind-3.18.1/cachegrind/cg_merge.c:1062-1160 | the shape that an insertion gives does not depend on which nodes hold the bindings |
| `CacheSim.TagsAreRecent` | proj1/valgrind-3.18.1/cachegrind/cg_sim.c:87-120 | on every trace the tags of a set are its distinct blocks, most recent first, padded with zeros and cut to its ways |
| `CacheSim.MissIffFarAway` | proj1/valgrind-3.18.1/cachegrind/cg_sim.c:87-120 | a reference misses exactly if at least as many other blocks as ways were used since, or the block never was; block 0 hits an empty way |
| `CacheSim.CacheIsRecent` | proj1/valgrind-3.18.1/cachegrind/cg_sim.c:123-161 | after any trace of accesses each set holds its own blocks, most recent first |
| `CacheSim.BlocksExactly` | proj1/valgrind-3.18.1/cachegrind/cg_sim.c:123-161 | a set is referred to for a block exactly if the block belongs to it and some byte of some access lies in the block |
| `CacheSim.RefMissIff` | proj1/valgrind-3.18.1/cachegrind/cg_sim.c:123-161 | after any trace, an access misses exactly if the block of its first byte is far away in its set or, if it is another one, that of its last byte |
| `CacheSim.MoreWaysNeverMissMore` | proj1/valgrind-3.18.1/cachegrind/cg_sim.c:123-161 | with the same sets, fewer ways are a prefix of more ways on every trace, and more ways never miss more |
| `CacheSim.ShortRefsAreOk` | proj1/valgrind-3.18.1/cachegrind/cg_sim.c:123-161 | accesses of at most a line that do not wrap around never reach the panic |
| `CacheSim.NoXIsGen` | proj1/valgrind-3.18.1/cachegrind/cg_sim.c:177-232 | where the test allows the fast path it changes caches and counts misses as the generic path does |
| `CacheArray.Cache.SetRefIsMiss` | proj1/valgrind-3.18.1/cachegrind/cg_sim.c:87-120 | the loops over the one array of tags do to the row of the set what the list function does, and nothing to other rows |
| `CacheArray.Cache.RefIsMiss` | proj1/valgrind-3.18.1/cachegrind/cg_sim.c:123-161 | an access of one or two lines, in place |
| `CacheArray.DorefGen` | proj1/valgrind-3.18.1/cachegrind/cg_sim.c:177-186 | two levels, in place |
| `CacheArray.DorefNoX` | proj1/valgrind-3.18.1/cachegrind/cg_sim.c:189-203 | the fast path, in place |
| `InstrumentModel.HelperIsActions` | proj1/valgrind-3.18.1/cachegrind/cg_main.c:304-460 | each logging helper, single or merged, does what its events do one at a time on the generic path |
| `CacheCounts.CountersExact` | proj1/valgrind-3.18.1/cachegrind/cg_main.c:304-436 | over any actions: each cache is the one after the addresses that reach it, the last-level cache being reached by those that miss the first level; and for every source line and kind of access the three counters grow by the number of accesses, of first-level misses and of misses of both levels |
| `CacheCounts.BranchesExact` | proj1/valgrind-3.18.1/cachegrind/cg_main.c:443-459 | the predictors are shown every branch with its outcome in the guest, which is the opposite of the side exit's where that leads to the next instruction |
| `CacheCounts.OnlyFetches` | proj1/valgrind-3.18.1/cachegrind/cg_main.c:304-327 | without cache simulation only instructions are counted |
| `InstrumentRef.OneFetchEach` | proj1/valgrind-3.18.1/cachegrind/cg_main.c:1107-1125 | every instruction is fetched exactly once |
| `InstrumentAccess.ActionsExactly` | proj1/valgrind-3.18.1/cachegrind/cg_main.c:1097-1310 | the actions of a block are what its statements add one after the other, where what a statement reads and writes, under which guard, is said of the statement alone, and so is which write belongs to the read before it and which side exits are branches |
| `InstrumentAccess.DataExactly` | proj1/valgrind-3.18.1/cachegrind/cg_main.c:1127-1230 | the read actions are those of the statements that read, in order, and the write actions those of the statements that write, in order, but for the writes that belong to a read |
| `InstrumentAccess.JoinedWrite` | proj1/valgrind-3.18.1/cachegrind/cg_main.c:914-949 | a write is left out only if the last action is a read of the same place and size by the same instruction |
| `InstrumentAccess.NoByteMissed` | proj1/valgrind-3.18.1/cachegrind/cg_main.c:1127-1230 | for each kind of statement, all bytes that it reads are covered by one read action of its own, and all that it writes by one write action of its own or by that read |
| `InstrumentAccess.RunStops` | proj1/valgrind-3.18.1/cachegrind/cg_main.c:1233-1300 | a run does what the statements add up to and including the first side exit that is taken, and nothing after it |
| `InstrumentAccess.BlockExactly` | proj1/valgrind-3.18.1/cachegrind/cg_main.c:1315-1330 | a block that is left at its end does all that its statements add, then one indirect branch exactly if it jumps or calls to a computed address |
| `InstrumentRef.RunOutIsReach` | proj1/valgrind-3.18.1/cachegrind/cg_main.c:1094-1340 | running an output block up to any exit does what the reached actions do one at a time |
| `Instrument.CgState.Notify` | proj1/valgrind-3.18.1/cachegrind/cg_main.c:693-872 | the helper chosen stands for exactly the queued events it covers; merged events are of one instruction |
| `Instrument.CgState.FlushEvents` | proj1/valgrind-3.18.1/cachegrind/cg_main.c:693-872 | a flush emits calls for exactly the outstanding events, in order |
| `Instrument.CgState.AddEventIr` | proj1/valgrind-3.18.1/cachegrind/cg_main.c:875-892 | emitted and outstanding events together stay the events posted, also when the queue was full |
| `Instrument.CgState.AddEventDw` | proj1/valgrind-3.18.1/cachegrind/cg_main.c:914-949 | the same when a write turns the read before it into a modify, which counts as one read |
| `Instrument.CgState.AddEventGuarded` | proj1/valgrind-3.18.1/cachegrind/cg_main.c:951-994 | the same for a guarded access, after a flush |
| `Instrument.CgState.Process` | proj1/valgrind-3.18.1/cachegrind/cg_main.c:1097-1310 | one statement posts what the reference says, and nothing is outstanding at an exit |
| `Instrument.Instrument` | proj1/valgrind-3.18.1/cachegrind/cg_main.c:1041-1340 | for every block and queue size: without the inserted statements the output is the input, and every run reaches exactly the reference actions up to the exit taken |
| `Instrument.InstrumentedRun` | proj1/valgrind-3.18.1/cachegrind/cg_main.c:1041-1340 | so caches, counters and predictor input after any run are those of handling each event singly, whatever the queue size |
| `WriteBack.SetRefWbIsSetRef` | proj1/valgrind-3.18.1/callgrind/sim.c:352-386 | apart from the dirty bits a write-back set is the plain LRU set, with the same hits |
| `WriteBack.DirtyIffWritten` | proj1/valgrind-3.18.1/callgrind/sim.c:352-386 | on every trace no tag is twice in a set but as an empty place, and a line is dirty exactly if it was written since it was installed, also the one whose tag is that of an empty place |
| `WriteBack.DirtyEvictionIff` | proj1/valgrind-3.18.1/callgrind/sim.c:352-386 | after any trace, a reference reports a dirty eviction if and only if it misses and the line it evicts was written since it was installed |
| `WriteBack.EvictionsExact` | proj1/valgrind-3.18.1/callgrind/sim.c:352-386 | on every trace, the dirty evictions of a line, plus one if it is dirty now, are exactly the times that a write found it not yet written since it was installed |
| `WriteBack.EvictionsBound` | proj1/valgrind-3.18.1/callgrind/sim.c:352-386 | dirty evictions of a line, plus one if it is dirty now, never exceed the writes to it |
| `WriteBack.TagOfInjective` | proj1/valgrind-3.18.1/callgrind/sim.c:174-189 | upper-bit tags of different blocks of a set differ, have no dirty bit, and are not zero beyond the first block |
| `WriteBackLru.WriteBackIsTagLru` | proj1/valgrind-3.18.1/callgrind/sim.c:352-420 | for all addresses and on every trace from an empty cache, each set holds what the plain LRU list of its upper-bit tags holds, tag 0 being an empty place too |
| `WriteBackLru.WriteBackMissIff` | proj1/valgrind-3.18.1/callgrind/sim.c:352-420 | so an access within a line misses exactly if its tag was not used in the set or as many other tags as ways were used since; tag 0 hits as long as there is an empty place |
| `WriteBackLru.WriteBackIff` | proj1/valgrind-3.18.1/callgrind/sim.c:352-420 | what an access to one or two lines reports: a dirty eviction if and only if one of its references, the second one after the first, misses and evicts a line written since it was installed |
| `WriteBackLru.WriteBackIsLru` | proj1/valgrind-3.18.1/callgrind/sim.c:246-420 | exactly when the cache is LRU over lines: on all traces over a set of lines, hits are those of the plain cache, if and only if no two of the lines are the same modulo 2^32, none but line 0 is the first of its set modulo 2^32, and with one set no two are neighbours |
| `WriteBackLru.TagOfLowBlock` | proj1/valgrind-3.18.1/callgrind/sim.c:174-189 | a tag is that of the line modulo 2^32 |
| `WriteBackLru.TagsAgree` | proj1/valgrind-3.18.1/callgrind/sim.c:174-189 | below that, two lines of a set have the same tag exactly if they are the same |
| `WriteBackLru.LineTagsAgree` | proj1/valgrind-3.18.1/callgrind/sim.c:174-189 | for all lines of a set, exactly if they are the same modulo 2^32; and the tag is 0 exactly for the first line of the set modulo 2^32 |
| `WriteBackLru.HighAddressHits` | proj1/valgrind-3.18.1/callgrind/sim.c:174-189 | an access 4 GB above a written line hits in the write-back model and misses in the plain one |
| `WriteBackLru.LowAddressHits` | proj1/valgrind-3.18.1/callgrind/sim.c:174-189 | line 1 hits in an empty write-back cache and misses in the plain one |
| `WriteBackLru.NeighbourMisses` | proj1/valgrind-3.18.1/callgrind/sim.c:389-400 | with one set, an access to two lines counts as one to the first, and the second misses afterwards |
| `CacheUse.UseIsLru` | proj1/valgrind-3.18.1/callgrind/sim.c:683-829 | apart from the slots a set is the plain LRU set |
| `CacheUse.UseKeepsRow` | proj1/valgrind-3.18.1/callgrind/sim.c:683-829 | each reference keeps slots in range and unshared, and each slot records a line of the set with the tag of its entry |
| `CacheUse.SlotsCover` | proj1/valgrind-3.18.1/callgrind/sim.c:153-169 | the slots of a set are a permutation: every number is in use |
| `CacheUse.LineAddress` | proj1/valgrind-3.18.1/callgrind/sim.c:673-720 | tag and set together are the line address, for addresses below 2^32 |
| `CacheUse.EveryState` | proj1/valgrind-3.18.1/callgrind/sim.c:881-972 | both hold in every state reached by any accesses, at all addresses |
| `CacheUse.IndexUnique` | proj1/valgrind-3.18.1/callgrind/sim.c:881-929 | an index into the arrays of line data belongs to one set and one slot |
| `TagArrays.SetRefWbInPlace` | proj1/valgrind-3.18.1/callgrind/sim.c:352-386 | the loops that search and shift one set in place, other sets untouched |
| `TagArrays.UseInPlace` | proj1/valgrind-3.18.1/callgrind/sim.c:683-829 | the same for the model with slots, and the index that is used is that of the slot |
| `ShadowStack.ClgThread.PushCxt` | proj1/valgrind-3.18.1/callgrind/context.c:272-329 | entering a function, in place, with the stack enlarged as needed |
| `ShadowStack.ClgThread.EnsureStackSize` | proj1/valgrind-3.18.1/callgrind/callstack.c:87-110 | the stack gets the size that the doubling loop reaches, the entries stay, and there is room for an entry up to the old size |
| `ShadowStack.RoomExact` | proj1/valgrind-3.18.1/callgrind/callstack.c:92-96 | there is room for an entry exactly if its number is not the size times 2, 4, 8 and so on |
| `ShadowStack.ClgThread.PushCallStack` | proj1/valgrind-3.18.1/callgrind/callstack.c:184-304 | a call or skipped call, in place |
| `ShadowStack.ClgThread.PopCallStack` | proj1/valgrind-3.18.1/callgrind/callstack.c:312-399 | a return, in place, also one that leaves a handler or reaches through several; the asserted context holds afterwards, and so does the invariant wherever `InvPop` says so |
| `ShadowStack.ClgThread.UnwindCallStack` | proj1/valgrind-3.18.1/callgrind/callstack.c:405-435 | the loop that pops up to a stack pointer, through any number of handlers, and how many it popped |
| `ShadowReturns.UnwindStops` | proj1/valgrind-3.18.1/callgrind/callstack.c:405-435 | unwinding leaves a prefix of the call stack: all calls above it were made below the stack pointer or, up to the count, at it, and the last one left was not |
| `ShadowProof.PopAny` | proj1/valgrind-3.18.1/callgrind/callstack.c:312-399 | from a state that keeps the invariant all calls can be popped, one after the other: each finds its place on the function stack and a context, even if the invariant is lost on the way |
| `ShadowStack.ClgThread.PreSignal` | proj1/valgrind-3.18.1/callgrind/threads.c:197-220 | a handler begins, in place |
| `ShadowStack.ClgThread.PostSignal` | proj1/valgrind-3.18.1/callgrind/threads.c:237-296 | a handler ends, in place |
| `ShadowStack.ClgThread.PushExecState` | proj1/valgrind-3.18.1/callgrind/threads.c:387-406 | a fresh execution state with costs of its own |
| `ShadowStack.ClgThread.ExecStateSave` | proj1/valgrind-3.18.1/callgrind/threads.c:410-432 | the current state is copied to the top of the execution stack |
| `ShadowStack.ClgThread.ExecStateRestore` | proj1/valgrind-3.18.1/callgrind/threads.c:435-456 | and back |
| `ShadowStack.ClgThread.HandleUnderflow` | proj1/valgrind-3.18.1/callgrind/bbcc.c:487-552 | a call that was never seen is made up, in place |
| `ShadowStack.ClgThread.Classify` | proj1/valgrind-3.18.1/callgrind/bbcc.c:598-726 | what a jump is taken for: call, return of so many frames, or neither |
| `ShadowReturns.TakenIff` | proj1/valgrind-3.18.1/callgrind/bbcc.c:639-672 | a return instruction is taken for a return if and only if the call stack is empty, the stack pointer is above that of the last call, or it is equal and one of the calls made with it returns to this block |
| `ShadowReturns.CalledIff` | proj1/valgrind-3.18.1/callgrind/bbcc.c:675-722 | any other jump is taken for a call if and only if it leads to the entry of a function, another section or another object, or is a return instruction not taken for a return |
| `ShadowReturns.EqualReturn` | proj1/valgrind-3.18.1/callgrind/bbcc.c:656-669 | a return with an unchanged stack pointer leaves the innermost matching call and all above it; it leaves exactly those if and only if the call below was not made with a lower stack pointer |
| `ShadowStack.ClgThread.Arrive` | proj1/valgrind-3.18.1/callgrind/bbcc.c:598-780 | what the jump does to the stacks |
| `ShadowStack.ClgThread.SetupBbcc` | proj1/valgrind-3.18.1/callgrind/bbcc.c:561-917 | arriving at a block, in place, in the order in which the source pops, repairs and pushes |
| `ShadowProof.InvCall` | proj1/valgrind-3.18.1/callgrind/callstack.c:184-304 | a call keeps the invariant that links call stack, function stack, contexts and handlers |
| `ShadowProof.InvPop` | proj1/valgrind-3.18.1/callgrind/callstack.c:312-399 | a return keeps it exactly if it does not reach through two handlers |
| `ShadowProof.InvUnwind` | proj1/valgrind-3.18.1/callgrind/callstack.c:405-435 | unwinding keeps it |
| `ShadowProof.InvPreSignal` | proj1/valgrind-3.18.1/callgrind/threads.c:197-220 | the begin of a handler keeps it |
| `ShadowProof.InvPostSignal` | proj1/valgrind-3.18.1/callgrind/threads.c:237-296 | so does the end, which makes the saved state current |
| `ShadowProof.InvUnderflow` | proj1/valgrind-3.18.1/callgrind/bbcc.c:487-552 | repairing an underflow keeps functions and contexts in step exactly if the function returned to is the one that seemed to run, or no call of the part is left |
| `ShadowProof.InvArrive` | proj1/valgrind-3.18.1/callgrind/bbcc.c:704-780 | so do the pops, repairs and pushes of a jump |
| `ShadowProof.InvSettle` | proj1/valgrind-3.18.1/callgrind/bbcc.c:782-917 | and entering the block |
| `ShadowRuns.InvFromStart` | proj1/valgrind-3.18.1/callgrind/threads.c:101-125 | a new thread meets the invariant, so it holds in every state of such a run from its start |
| `ShadowRuns.InvRun` | proj1/valgrind-3.18.1/callgrind/bbcc.c:561-917 | the invariant holds in every state of every run whose steps meet the conditions of `InvPop` and, for the strong form, `InvUnderflow` |
| `ShadowCounts.PostSignalExact` | proj1/valgrind-3.18.1/callgrind/threads.c:237-296 | from exact counts (a function's count is its non-skipped calls plus its occurrences just above a marker), the end of a handler leaves exact counts if and only if the function it ends in is the first above the marker |
| `ShadowCounts.PopExact` | proj1/valgrind-3.18.1/callgrind/callstack.c:312-399 | every return leaves exact counts if and only if a handler that it leaves is in its first function and it cuts no function right above a marker off the function stack |
| `ShadowCounts.UnderflowExact` | proj1/valgrind-3.18.1/callgrind/bbcc.c:487-552 | the repair of an underflow and the return after it do so if and only if the block executed last is of the function on top of the function stack |
| `ShadowCounts.ChooseExact` | proj1/valgrind-3.18.1/callgrind/bbcc.c:827-853 | choosing a cost centre does so if and only if the recursion level is not zero or levels are not told apart |
| `ShadowCounts.PopAcross` | proj1/valgrind-3.18.1/callgrind/callstack.c:312-399 | a return through two handlers leaves exact counts if and only if the first one is in its first function and those whose markers are cut off have executed nothing |
| `ShadowCounts.StepExact` | proj1/valgrind-3.18.1/callgrind/bbcc.c:561-917 | any step from a state that keeps the invariant, also one that returns through several handlers, keeps exact counts exact if and only if what it shifts cancels out; that can be told from the state before |
| `ShadowCounts.RunExact` | proj1/valgrind-3.18.1/callgrind/bbcc.c:561-917 | after any run from the start of a thread that never returns through two handlers, counts are exact if and only if all that was shifted cancels out |
| `ShadowCounts.RunThenStep` | proj1/valgrind-3.18.1/callgrind/bbcc.c:561-917 | the same after one more step of any kind, so also after the first return through two handlers |
| `ShadowCounts.FirstWrong` | proj1/valgrind-3.18.1/callgrind/bbcc.c:561-917 | the counts are exact in all states of a run if and only if no step shifts any |
| `ShadowCounts.ActiveFromStart` | proj1/valgrind-3.18.1/callgrind/context.c:288-329 | in runs in which no underflow replaces a function that still has calls, every count is the exact number, and never zero while its function runs |
| `ShadowCounts.LevelPositive` | proj1/valgrind-3.18.1/callgrind/bbcc.c:827-853 | in the states of such runs the recursion level is never zero, so the branch for it is not taken; in other runs it can be, see `ShadowExamples.CountsGoWrong` |
| `ShadowCounts.CentreIs` | proj1/valgrind-3.18.1/callgrind/bbcc.c:827-853 | in the states of such runs the cost centre is that of the number of open activations of the function, up to the number of levels told apart |
| `ShadowSignals.SignalBracket` | proj1/valgrind-3.18.1/callgrind/threads.c:197-296 | after a signal, any run of its handler with calls, underflows and signals of its own, and its end: context, block, skipped call, collection state, jump position, cost array and both stacks are those from before |
| `ShadowReturns.CallPushes` | proj1/valgrind-3.18.1/callgrind/callstack.c:184-304 | a call instruction pushes one call, with the current cost, stack pointer and return address, attributed to the block that made it or, out of skipped functions, to the one that called the first of them; popping it leads back to where it was made |
| `ShadowReturns.JumpPushes` | proj1/valgrind-3.18.1/callgrind/bbcc.c:675-722 | so does a jump that is taken for a call, with the stack pointer of the call below |
| `ShadowReturns.JumpReplaces` | proj1/valgrind-3.18.1/callgrind/bbcc.c:697-716 | a jump that is to replace the current call pushes one that returns to where the replaced one was made |
| `ShadowReturns.SameHeight` | proj1/valgrind-3.18.1/callgrind/callstack.c:312-435 | over every run in which the open calls stay open, with calls, returns over several calls, underflows, and handlers that return or are jumped out of: when the call stack is back to its height in the same handler, both stacks, the context and the caller of skipped functions are those from the start |
| `ShadowReturns.CallBracket` | proj1/valgrind-3.18.1/callgrind/bbcc.c:561-917 | a call, any run in which it stays open until it is on top again, and a return that answers it: call stack, function stack, context and caller of skipped functions are those from before the call, and its arc is charged with what was spent in between, if and only if there is a function between the marker and the current one |
| `ShadowReturns.DeepIff` | proj1/valgrind-3.18.1/callgrind/bbcc.c:755-764 | in terms of the state before the call: there is one already, or the call enters a function that is not on top |
| `ShadowReturns.UnderflowCharged` | proj1/valgrind-3.18.1/callgrind/bbcc.c:540-552 | a made-up call is charged with what was spent since the last dump or, in a handler, since its start |
| `ShadowToggle.CollectsExactly` | proj1/valgrind-3.18.1/callgrind/callstack.c:139-159 | at any time in such runs as `ShadowCounts.ActiveFromStart` is about, cost is collected as at the start if and only if an even number of toggled functions has open calls in the current thread or handler, not counting the function that it started in and those active below |
| `ShadowCosts.AllAccounted` | proj1/valgrind-3.18.1/callgrind/threads.c:237-296 | over every run, the cost arrays and the cost of finished handlers add up to all that was spent |
| `ShadowExamples.CountsGoWrong` | proj1/valgrind-3.18.1/callgrind/bbcc.c:487-552 | a run of ten steps: counts are exact before the eighth, then f is counted 2^32 - 1 times with no call of it left, and the next call of f takes the branch for a recursion level of zero |
| `ShadowExamples.ReturnThroughTwo` | proj1/valgrind-3.18.1/callgrind/callstack.c:312-399 | a run of six steps: counts are exact until a pop reaches through two handlers, after which the function of the lower handler is counted once with no call of it left |
| `ShadowExamples.LeftElsewhere` | proj1/valgrind-3.18.1/callgrind/threads.c:237-296 | a run of six steps: counts are exact until a handler ends in a function that is not its first, after which that one is counted 2^32 - 1 times and its first once, with no call of either left |
| `ShadowThreads.SaveRestore` | proj1/valgrind-3.18.1/callgrind/threads.c:410-456 | saving and restoring gives the state back |
| `ShadowThreads.OthersLeaveAlone` | proj1/valgrind-3.18.1/callgrind/threads.c:128-176 | whatever other threads do to their own stacks, states and counts, a thread continues where it was |
| `ProfileText.ReadBack` | proj1/valgrind-3.18.1/cachegrind/cg_merge.c:462-484 | a number below 2^63 is read as it was printed |
| `ProfileText.NotReadBack` | proj1/valgrind-3.18.1/cachegrind/cg_merge.c:462-484 | a larger one is printed as a negative one, and none is read |
| `ProfileText.LinesOfText` | proj1/valgrind-3.18.1/cachegrind/cg_merge.c:156-190 | lines without newlines are read as they were written |
| `ProfileFormat.NumbersRead` | proj1/valgrind-3.18.1/cachegrind/cg_merge.c:462-519 | whatever white space separates, precedes or follows them, the numbers of a line are read, leading zeros and all, modulo 2^64 |
| `ProfileFormat.StrCmpIs` | proj1/valgrind-3.18.1/cachegrind/cg_merge.c:441-449 | names are compared as in a dictionary |
| `ProfileFormat.InOrderOf` | proj1/valgrind-3.18.1/cachegrind/cg_merge.c:441-458 | files stand in the order of their names in a profile, functions within a file too, and lines by number |
| `ProfileFormat.RowsWritten` | proj1/valgrind-3.18.1/cachegrind/cg_merge.c:404-437 | an example of what is written, character by character |
| `ProfileParse.EventsAreWords` | proj1/valgrind-3.18.1/cachegrind/cg_merge.c:676-681 | the events of any line are its words that start with a letter, but for the first word |
| `ProfileParse.NamesCounted` | proj1/valgrind-3.18.1/cachegrind/cg_merge.c:676-681 | a line with a list of names has as many events as names, also with a space at its end |
| `ProfileParse.ParseIff` | proj1/valgrind-3.18.1/cachegrind/cg_merge.c:606-760 | a file is accepted if and only if its first lines are as they have to be, every other line names a file or function or has one count for each event, and the last one has the sums; the counts of a line of a function are then the sums over the lines that follow its names |
| `ProfileParse.NamedFile` | proj1/valgrind-3.18.1/cachegrind/cg_merge.c:606-760 | so a file that names its events is accepted if and only if every line of counts has as many as there are names and the summary has their sums |
| `ProfileSums.ParsedIsOk` | proj1/valgrind-3.18.1/cachegrind/cg_merge.c:610-763 | whatever is read without an error is ordered and has a summary that is the sum over its lines |
| `ProfileSums.MergeKeepsOk` | proj1/valgrind-3.18.1/cachegrind/cg_merge.c:766-842 | merging succeeds exactly for equal event lines and keeps the summary the sum over all lines |
| `ProfileSums.MergeOuterTotal` | proj1/valgrind-3.18.1/cachegrind/cg_merge.c:780-842 | merging conserves the total of every event |
| `ProfileMerge.MergeAdds` | proj1/valgrind-3.18.1/cachegrind/cg_merge.c:766-842 | counts are added for each file, function, line and event |
| `ProfileMerge.OuterCommutes` | proj1/valgrind-3.18.1/cachegrind/cg_merge.c:780-842 | merging is commutative |
| `ProfileMerge.OuterAssociates` | proj1/valgrind-3.18.1/cachegrind/cg_merge.c:780-842 | and associative |
| `ProfileMerge.AnyOrder` | proj1/valgrind-3.18.1/cachegrind/cg_merge.c:893-925 | the order in which files are merged does not matter |
| `MergeFiles.MergedExact` | proj1/valgrind-3.18.1/cachegrind/cg_merge.c:893-925 | a list of files can be merged if and only if all of them parse and have the same event line; then the counts are those of all files and the summary is their sum |
| `ProfileFormat.FirstHeads` | proj1/valgrind-3.18.1/cachegrind/cg_merge.c:766-842 | the merged profile keeps the description, command and events lines of the first file |
| `MergeFiles.AnyInputOrder` | proj1/valgrind-3.18.1/cachegrind/cg_merge.c:893-925 | for any other order of the same files the program succeeds alike, with the same counts and the same summary |
| `MergeFiles.MergeInputs` | proj1/valgrind-3.18.1/cachegrind/cg_merge.c:893-925 | the loop of the program, with profiles on the heap: the merged profile, or the first error |
| `ProfileRound.RoundTrip` | proj1/valgrind-3.18.1/cachegrind/cg_merge.c:404-437 | reading what was written gives the same profile if there is an event and all numbers are below 2^63, and an error otherwise |
| `ProfileRound.TextRoundTrip` | proj1/valgrind-3.18.1/cachegrind/cg_merge.c:404-437 | the same for the characters of a file, for names without newlines |
| `ProfileRound.MergedIsReadable` | proj1/valgrind-3.18.1/cachegrind/cg_merge.c:766-842 | what merging two read files writes passes the check of the summary when read again, unless a number reaches 2^63 |
| `ProfileLines.AddCounts` | proj1/valgrind-3.18.1/cachegrind/cg_merge.c:521-527 | the loop adds one block of counts to another in 64 bits, in place |
| `ProfileLines.AddCountsToMap` | proj1/valgrind-3.18.1/cachegrind/cg_merge.c:530-547 | counts go into the block of the line, or their block itself becomes that of a new line; whether it may be freed is returned, and the map's blocks stay unshared |
| `ProfileLines.DopyBlocks` | proj1/valgrind-3.18.1/cachegrind/cg_merge.c:1341-1390 | a deep copy of a tree of blocks: the same shape and counts, on new nodes and new blocks, none of them twice |
| `ProfileLines.DopyInnerMap` | proj1/valgrind-3.18.1/cachegrind/cg_merge.c:361-365 | the copy of a map of lines shares no object with it |
| `ProfileLines.MergeLines` | proj1/valgrind-3.18.1/cachegrind/cg_merge.c:812-832 | the lines of one function are merged while the source map is iterated over: the sum of both, the source as before, nothing taken over from it |
| `ProfileFiles.AddRowTo` | proj1/valgrind-3.18.1/cachegrind/cg_merge.c:578-596 | a row of counts goes into the map of maps in place; nothing in it is reachable twice afterwards |
| `ProfileFiles.MergeMaps` | proj1/valgrind-3.18.1/cachegrind/cg_merge.c:786-837 | the two nested iterations: the merged map, the source as before, and still no object in common |
| `ProfileFile.ReadULong` | proj1/valgrind-3.18.1/cachegrind/cg_merge.c:462-484 | the loop reads the number at the position, and where it ends |
| `ProfileFile.SplitUpCountsLine` | proj1/valgrind-3.18.1/cachegrind/cg_merge.c:486-519 | a line of counts, or the error |
| `ProfileFile.CacheProfFile.HandleCounts` | proj1/valgrind-3.18.1/cachegrind/cg_merge.c:549-603 | a line of counts goes into the maps and the running summary, in place, or the error |
| `ProfileFile.CacheProfFile.ReadBody` | proj1/valgrind-3.18.1/cachegrind/cg_merge.c:694-721 | the loop over the lines up to the summary |
| `ProfileFile.CacheProfFile.CheckSummary` | proj1/valgrind-3.18.1/cachegrind/cg_merge.c:737-751 | the comparison with the counts summed up |
| `ProfileFile.ReadFile` | proj1/valgrind-3.18.1/cachegrind/cg_merge.c:610-763 | a whole file as a profile of new objects none of which is shared, or the first error |
| `ProfileFile.Show` | proj1/valgrind-3.18.1/cachegrind/cg_merge.c:404-437 | the lines that are written, by the two nested iterations |
| `ProfileFile.MergeInto` | proj1/valgrind-3.18.1/cachegrind/cg_merge.c:766-842 | merging in place: the counts of both; nodes and counts of the source are not written, its contents stay, and no map, node or block of counts is reachable from both profiles afterwards |
| `ProfileFile.CountAfterMerge` | proj1/valgrind-3.18.1/cachegrind/cg_merge.c:521-603 | counts added in place to the merged profile later do not show in the source |
| `ProfileFile.SmallIsIterable` | proj1/valgrind-3.18.1/cachegrind/cg_merge.c:992-1002 | profiles with fewer than 9227464 functions, and lines in each, can be merged and shown |
| `QuickSort.SortPermutes` | proj1/valgrind-3.18.1/callgrind/dump.c:901-1009 | the sort ends and always permutes its input |
| `QuickSort.InsertStable` | proj1/valgrind-3.18.1/callgrind/dump.c:917-921 | short ranges are sorted with entries that compare equal left in their order |
| `QuickSort.PivotIs` | proj1/valgrind-3.18.1/callgrind/dump.c:901-944 | the pivot is the middle one of seven entries, the median of first, middle and last up to forty, and beyond that one of nine places of which at least four are not above it and at least four not below |
| `QuickSort.PartitionOk` | proj1/valgrind-3.18.1/callgrind/dump.c:950-969 | the four pointers separate equal, smaller, larger and equal entries |
| `QuickSort.SortsIfFair` | proj1/valgrind-3.18.1/callgrind/dump.c:901-1009 | it sorts exactly if no partition it meets has more entries equal to the pivot at its start than smaller ones, some being smaller |
| `QuickSort.DistinctIsFair` | proj1/valgrind-3.18.1/callgrind/dump.c:901-1009 | entries that compare pairwise different never make one |
| `QuickSort.SortsDistinct` | proj1/valgrind-3.18.1/callgrind/dump.c:901-1009 | so those are sorted |
| `QuickSort.NotSorted` | proj1/valgrind-3.18.1/callgrind/dump.c:974 | seven entries that are not sorted |
| `QuickSortArray.PartitionInPlace` | proj1/valgrind-3.18.1/callgrind/dump.c:950-969 | the loops that swap in the array |
| `QuickSortArray.InsertionSort` | proj1/valgrind-3.18.1/callgrind/dump.c:917-921 | the loops for short ranges |
| `QuickSortArray.QSort` | proj1/valgrind-3.18.1/callgrind/dump.c:909-1009 | the array is permuted within the range only, and sorted exactly for fair inputs |
| `Adler.ClosedForm` | proj1/valgrind-3.18.1/auxprogs/valgrind-di-server.c:247-365 | without recursion: the first sum is that of the bytes, the second that of the bytes each weighted by how many come from it on, both modulo 65521 |
| `Adler.LargestPrime` | proj1/valgrind-3.18.1/auxprogs/valgrind-di-server.c:250 | the modulus is 65521, a prime, and no number from there to 65535 is |
| `Adler.NoOverflow` | proj1/valgrind-3.18.1/auxprogs/valgrind-di-server.c:247-365 | neither sum leaves 32 bits within a block of 5552 bytes |
| `Adler.LongerOverflows` | proj1/valgrind-3.18.1/auxprogs/valgrind-di-server.c:247-365 | in every longer block bytes of 255 make the second sum leave 32 bits |
| `Adler.ReduceLate` | proj1/valgrind-3.18.1/auxprogs/valgrind-di-server.c:247-365 | reducing at the end of a block is reducing after each byte |
| `Adler.LadderIsMod` | proj1/valgrind-3.18.1/auxprogs/valgrind-di-server.c:263-290 | the ladder of conditional subtractions is the remainder by 65521 |
| `Adler.ChecksumAppend` | proj1/valgrind-3.18.1/auxprogs/valgrind-di-server.c:719-724 | checksumming two buffers in turn is checksumming their concatenation |
| `AdlerBuffer.Adler32` | proj1/valgrind-3.18.1/auxprogs/valgrind-di-server.c:247-365 | every path of the function computes the checksum of sections 2.2 and 9 of RFC 1950, and so both sums by the closed form |
| `Frames.WriteNumber` | proj1/valgrind-3.18.1/auxprogs/valgrind-di-server.c:373-400 | little-endian bytes are written, the rest of the buffer is unchanged |
| `Frames.ReadNumber` | proj1/valgrind-3.18.1/auxprogs/valgrind-di-server.c:382-410 | and read |
| `Frames.ReadWritten` | proj1/valgrind-3.18.1/auxprogs/valgrind-di-server.c:373-410 | a number that fits is read as it was written |
| `Frames.WriteRead` | proj1/valgrind-3.18.1/auxprogs/valgrind-di-server.c:373-410 | bytes are those that would be written for the number they are read as |
| `Frames.LowestFirst` | proj1/valgrind-3.18.1/auxprogs/valgrind-di-server.c:373-410 | byte i of a number is the number divided by 256^i, modulo 256 |
| `Frames.NumbersLaidOut` | proj1/valgrind-3.18.1/auxprogs/valgrind-di-server.c:462-498 | a frame of numbers is the tag and then eight such bytes for each number |
| `Frames.OnWire` | proj1/valgrind-3.18.1/auxprogs/valgrind-di-server.c:697-724 | a frame travels as four such bytes of checksum over the rest, four of length, and the data |
| `Frames.ParseAsciiz` | proj1/valgrind-3.18.1/auxprogs/valgrind-di-server.c:413-459 | a frame with a string parses exactly if it is one that is built from the tag and a string without zeros |
| `Frames.NumbersRoundTrip` | proj1/valgrind-3.18.1/auxprogs/valgrind-di-server.c:462-498 | frames of numbers parse exactly if they are built from the tag and that many numbers, and give those |
| `Frames.SendReceive` | proj1/valgrind-3.18.1/auxprogs/valgrind-di-server.c:697-724 | what is sent is received, unless it is longer than 4 MB |
| `Frames.OnlySent` | proj1/valgrind-3.18.1/auxprogs/valgrind-di-server.c:697-724 | what is received is a frame as it would be sent |
| `Frames.Send` | proj1/valgrind-3.18.1/auxprogs/valgrind-di-server.c:880-900 | the header that is built for a frame |
| `Frames.Receive` | proj1/valgrind-3.18.1/auxprogs/valgrind-di-server.c:697-724 | a frame is accepted exactly if length and checksum are right |
| `HashChains.Rehash` | proj1/valgrind-3.18.1/coregrind/m_execontext.c:349-387 | enlarging moves every entry to the chain its hash says, and loses none |
| `HashChains.StepUpOk` | proj1/valgrind-3.18.1/coregrind/m_execontext.c:497-519 | moving an entry towards the front keeps the table |
| `ExeContext.EcTable.Record` | proj1/valgrind-3.18.1/coregrind/m_execontext.c:460-555 | a trace gets the context that is not archived and has it, or a new one with the next number; the panic comes exactly when a new one is needed and numbers run out |
| `ExeContext.EcTable.Archive` | proj1/valgrind-3.18.1/coregrind/m_execontext.c:240-267 | exactly the contexts that touch the range are archived, in place, and the table stays intact |
| `ExeContext.ArchivedIff` | proj1/valgrind-3.18.1/coregrind/m_execontext.c:240-267 | a live context is archived in the epoch if and only if some address of its trace lies within the range, ends included |
| `ExeContext.EcTable.FromEcu` | proj1/valgrind-3.18.1/coregrind/m_execontext.c:587-600 | a number leads back to the one context that has it |
| `ExeContext.SameTraceSameContext` | proj1/valgrind-3.18.1/coregrind/m_execontext.c:460-555 | over every run, two recordings get the same context exactly if their traces are equal and nothing archived in between touches the trace |
| `JccTable.DoublingIsEnough` | proj1/valgrind-3.18.1/callgrind/jumps.c:81-142 | one enlarging always makes room for one more entry |
| `JccTable.JccHash.New` | proj1/valgrind-3.18.1/callgrind/jumps.c:134-180 | a new arc is in its chain and in front of the list of its jump |
| `JccTable.JccHash.Get` | proj1/valgrind-3.18.1/callgrind/jumps.c:184-230 | the arc of a call is found through a shortcut or the table, and made only if there is none |
| `JccTable.SameCallSameArc` | proj1/valgrind-3.18.1/callgrind/jumps.c:184-230 | over every run, two lookups return the same arc exactly if caller, jump and callee are the same |
| `DedupPool.NumbersAndAddresses` | proj1/valgrind-3.18.1/coregrind/m_deduppoolalloc.c:345-381 | numbers are right for a pool anywhere; addresses by number are right exactly if the pool is aligned |
| `DedupPool.Pool.NewPoolOrGrow` | proj1/valgrind-3.18.1/coregrind/m_deduppoolalloc.c:140-179 | a pool twice the size at another address, with the bytes copied and the nodes' pointers moved, holds the same elements and has room |
| `DedupPool.Pool.AllocFixed` | proj1/valgrind-3.18.1/coregrind/m_deduppoolalloc.c:264-367 | an element is stored once and its number is its place in the order of first insertion |
| `DedupPool.Pool.IndexEltNumber` | proj1/valgrind-3.18.1/coregrind/m_deduppoolalloc.c:369-381 | the bytes at the address of a number are those of the element, whatever relocations there were |
| `DedupPool.Pool.Size` | proj1/valgrind-3.18.1/coregrind/m_deduppoolalloc.c:383-391 | the number of elements is read off the free end |
| `DedupPool.EqualBytesEqualNumbers` | proj1/valgrind-3.18.1/coregrind/m_deduppoolalloc.c:353-367 | over every sequence of requests, numbers are equal exactly if the bytes are |
| `DedupPool.FirstSeenOrder` | proj1/valgrind-3.18.1/coregrind/m_deduppoolalloc.c:353-367 | an element gets the next number exactly if it is new |
| `Events.LayoutDisjoint` | proj1/valgrind-3.18.1/callgrind/events.c:119-148 | every group of an event set has a place of its own in the cost array |
| `Events.NoGaps` | proj1/valgrind-3.18.1/callgrind/events.c:119-148 | the first group is at 0, each other one right behind the one before, and the last one ends at the size |
| `Events.CountsGroups` | proj1/valgrind-3.18.1/callgrind/events.c:119-148 | the count is the number of registered groups in the mask |
| `Events.StaleLayout` | proj1/valgrind-3.18.1/callgrind/events.c:119-148 | a set built before a group was registered stays right exactly if the group is not in it |
| `Events.EventSets.Register` | proj1/valgrind-3.18.1/callgrind/events.c:53-68 | so registering makes exactly the sets with that group out of date |
| `Events.EventSets.AddEventSet` | proj1/valgrind-3.18.1/callgrind/events.c:178-183 | two sets are joined: a group is in the result exactly if it is in one of them, sets built before stay as they are, and the layout is that of the groups unless the joined set was built out of date |
| `Events.EventSets.FromMask` | proj1/valgrind-3.18.1/callgrind/events.c:119-148 | the memoized set, or a new one with the layout of the groups |
| `Events.AddAndZeroCost2` | proj1/valgrind-3.18.1/callgrind/events.c:320-352 | for every event of every group the count moves from source to target, whatever the two layouts are; the result tells whether there was any |
| `Events.AddDiffCost` | proj1/valgrind-3.18.1/callgrind/events.c:358-398 | each counter grows by the difference in 64 bits, and the old costs become the new |
| `CallCosts.StepKeeps` | proj1/valgrind-3.18.1/callgrind/dump.c:1034-1060 | calls, calls noticed at their return (entered at the cost of the last dump, or at zero in a handler), returns, dumps and written jCCs keep the balance between what was attributed and what calls have cost |
| `CallCosts.DumpsDoNotMatter` | proj1/valgrind-3.18.1/callgrind/callstack.c:344-353 | over every run, what a jCC was attributed is the sum over its calls of exit cost less entry cost, however many dumps there were |
| `CallCosts.DumpSeesOpenCalls` | proj1/valgrind-3.18.1/callgrind/dump.c:1034-1060 | what a dump reports includes what open calls have cost so far |
| `CallCosts.UnderflowCharges` | proj1/valgrind-3.18.1/callgrind/bbcc.c:540-552 | a call noticed at its return costs what was spent since the last dump, in a handler since its start |
| `DiscoverPaths.LeakDetector.DiscoverPaths` | proj2/LeakDetector.cpp:53-76 | ends for every control flow graph, and appends the specified walks in order |
| `DiscoverPaths.WalksExact` | proj2/LeakDetector.cpp:53-76 | from any path, exactly the walks are found that go on from it to a block without a branch, no block occurring more than three times |
| `DiscoverPaths.WalksDistinct` | proj2/LeakDetector.cpp:53-76 | no way of choosing successors is found twice |
| `DiscoverPaths.WalksInTurn` | proj2/LeakDetector.cpp:53-76 | walks are found in the order of the successors chosen |
| `DiscoverPaths.FirstBranchIs` | proj2/LeakDetector.cpp:53-76 | the successors are those of the first branch of a block, whatever follows it |
| `DiscoverPaths.AllWalksOnce` | proj2/LeakDetector.cpp:53-76 | so from the entry every such walk is found exactly once |

## Left out

- `ExeContext.EcTable.Record`: the hash function is a parameter, so the bit mixing of `calc_hash` is not modelled; contexts are values that their number identifies, where the source returns pointers.
- `ProfileFile.ReadFile`: a file that ends after its description lines makes the source dereference a null pointer; the model reports an error there.
- `ProfileLines.DopyBlocks`: allocation does not fail, so the error paths for memory that runs out are not modelled; freeing is not either.
- `ProfileFile.MergeInto`: for a source whose maps are at most 32 deep to the left, as the source's own assertion demands (`WordFmIter.IterationFits`); blocks of different lengths, which make the source exit, cannot occur in a profile that was read.
- `ShadowStack.ClgThread.SetupBbcc`: the search for the cost centre and the recording of jump arcs are not modelled.
- `ShadowCounts.RunExact`: a run ends with its first return through two handlers (`ShadowCounts.RunThenStep` includes it); from then on the stacks are out of step, and what the source does to counts is not followed any further. The same goes for `ShadowCounts.FirstWrong` and `ShadowSignals.SignalBracket`.
- `ShadowToggle.CollectsExactly`: for runs in which no underflow replaces a function that still has calls; where active counts go wrong, collection is not followed any further.
- `ShadowThreads.OthersLeaveAlone`: the tables that all threads share are not modelled, nor are their counts when costs are not separated by thread.
- `InstrumentAccess.NoByteMissed`: for accesses no longer than a cache line; longer ones, which only helpers and double compare-and-swaps make, count as one of a line.
- `WriteBack.SetRefWbIsSetRef` and `CacheSim.TagsAreRecent`: where the source panics because an access touches more than two lines or sets, `CacheRef` returns a miss and `RefWb` a hit, and the cache is unchanged; `CacheSim.ShortRefsAreOk` says when that does not happen.
- `JccTable.JccHash.Get`: callers that are unknown (a null `from`) are not modelled; the source reads a field of that pointer.
- `JccTable.DoublingIsEnough`: ten times the number of entries is not wrapped to 32 bits, as the source would from 429496730 arcs on.
- `MergeFiles.MergeInputs`: for files with fewer than 9227464 functions, and as few lines in each; larger ones can still be merged if their trees happen to be no more than 32 deep to the left, which depends on the order of their lines.
- `CacheUse.UseIsLru`: the use model of one cache; the step from an L1 miss to the LL cache, which is the same lookup on another cache, and its skipping for memory line 0, are not modelled.
- `JccTable.JccHash.New`: the list of spontaneous calls, those without a caller, is left out.
- `DedupPool.Pool.AllocFixed`: for an aligned pool, a pool size that is a multiple of the alignment, and elements that fit a pool together with the alignment; otherwise the source's own assertion in `elt2nr` or reads past the pool get in the way. Pools of strings and of elements of different sizes are not modelled.
- `CallCosts.DumpsDoNotMatter`: for dumps of the thread itself, none of them inside a signal handler and without zeroing of costs.
- Valgrind's hash tables, XArrays and pool allocators, memory allocation and freeing: maps, sequences and fresh arrays stand for them.
- Reading and writing files, sockets and command lines; opening of input files by the merger's `main`.
- LZO compression of frames, CRC-32 of debug links, and the frames that carry file contents.
- `skip_direct_recursion`, function groups, and switching instrumentation off and on: the last resets the function stack without adjusting counts.
- Dumps and zeroing of costs that entering or leaving a function triggers.
- The search for contexts by hash in `context.c`, which accepts equal hashes with a common prefix; the number of a context is a parameter.
- The number of recursion levels told apart is a parameter of a function; BBCC hash tables and the copying of BBCCs are not modelled.
- Reuse of execution states, and the limit of ten nested handlers beyond the assertion that it is kept.
- Prefetching and sectored caches of `sim.c`, the counts that the use model reports, and the costs that its log helpers add up.
- Branch predictors: the instrumentation model records what they are shown.
- Registration of event names and event mappings.
- Leak detection proper in `LeakDetector.cpp`: it keeps the first binding of a variable and does not track struct fields.
