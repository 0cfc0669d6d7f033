# A verified model of the cache simulator

The repository simulates a hierarchy of coherent caches from a trace of memory accesses. One process, the
coordinator, decodes the trace, translates addresses through simulated page tables and hands the accesses out to
eight workers; each worker simulates a whole hierarchy on its share; an output process merges what they report. This
project models that path in Dafny, from the bytes of the trace to the merged output, and proves what the pieces
promise each other.

## How it is laid out

Where the program updates objects in place, the model has a class with the same fields whose methods are proved
against functions on values; the theorems about whole runs are lemmas about those functions.

- **Caches.** `Msi`, `CacheSpec` and `Hierarchy` say what an access does to a system of caches; `CacheObjects` does it
  in place. `Coherence` proves the single-writer property and the structure of the caches over all runs, `Effects` says
  line by line what an access leaves in every cache that it passes, tells or asks, `Accounting`
  relates hits, misses and write-backs, `Lru` and `LruWritten` say exactly what two forms of the replacement keep,
  `Layout` compares two layouts of sets.
  `Wiring` builds hierarchies in place, `WiringLinks` and `WiringProofs` prove what every way of building them keeps,
  and `BuiltHierarchies` that whatever is built has the links that the other theorems ask for.
- **Distribution.** `Sharding` proves that accesses to different lines do not interfere across residue classes of sets,
  so that a share of the trace gives that share of the result. `Worker` builds and drives the workers' hierarchies,
  `Dispatch` routes, buffers and sends, and puts the shares together again.
- **Memory.** `MemorySpec` is memory as a finite map from addresses to bytes. `LazyMemory` and `MemoryAccess` are the
  tree of pages that is loaded on demand, `BlobMemory` the slabs, `MemoryAgreement` the proof that both answer as their
  files determine.
- **Page tables.** `PageTable` has the walk and the walk of the processor manual, `PageWalk` the walk and the loader
  on simulated memory, `PageDump` what loading a dump leaves there, `PageList` the listing of all pages.
- **Event loop.** `EventLoop` joins the parts: messages are decoded, accesses translated, stored and dispatched.
  `EventMeaning` says what each event does, by the bits of registers and entries and the bytes of memory.
- **Trace.** `SharedMem` is the pair of shared buffers as a step system, `MpiReader` the pair of receive buffers with
  MPI at work behind it, `EventCodec` and `EventStream` the format, `EventReaders` the readers.
- **Output.** `OutputQueue`, `Merge` and `Output` are the linked lists of received buffers and the merge by time.
- `Arith`, `Numbers`, `Sequences` and `Options` hold small facts and helpers.

## Where the code and its documentation part ways

- **Sets.** The base of a set is its number times the number of ways, as the tests of the caches ask for. The macro
  leaves the factor out. `Layout` says exactly when that makes sets overlap, when a line that was never used is taken
  to be there, and that this can happen in every cache with several sets of several ways: to line 0 after line 1.
- **Replacement.** `cache/lru.c:11` looks at the first way of the set instead of the way at hand, and the refill at
  `cache/state.c:143` does not stamp the line. `Variant` keeps both forms, `AsWritten` and `Repaired`. Everything but
  the theorems on recency is proved for both. `Lru` proves the repaired form to be least recently used. `LruWritten`
  proves what the written form keeps: a set fills up in the order of first use, all of these lines but the first stay
  for ever, and the first way has the line used last of all others. So it gives up a least recently used line exactly
  if the set is not full or all that stay were used after all others, and it is a least recently used cache exactly
  with one way, or with a way for every line of a set. `LruWritten.NewestIsEvicted` is a run in which the line just
  used goes first, while the stamps, which no refill has set, say that it may.
- **Snooping.** A cache on the bus without the line lets a request act on its next victim, as written. The invariants
  survive that, and tag-only hits on invalid lines.
- **Page walk.** An entry of the first level with its size bit set is taken for a page, and bits 50 to 62 of an entry
  for a large page reach the result. `PageTable.WalkIsManualIff` says that the walk is right exactly when neither is
  met; `PageWalk` has a memory for each case in which it is wrong. Physical addresses have 50 bits, as many as the program's mask keeps.
- **Listing.** The listing does not look at the size bit in the tables of the third level, so that it reads a
  two-megabyte page as if it were a table. It agrees with the walk exactly where what it reads there has no present
  entry (`PageList.WholeListingAgreesIff`); `PageList.LargePageIsListed` is a memory in which it does not.
- **Time differences.** The long form loses bit 55. `EventCodec.HeadRoundTripIff` has the exact condition.
- **Guard.** The reader refuses addresses from 2^42 on, the writer does not. `LazyMemory.ReaderSeesIff` and
  `LazyMemory.ReadBackIff` say exactly what that costs, `LazyMemory.GuardedByteIsLost` that it costs something.
- **Event numbers.** Where the mapping file gives two events one number, the readers prefer the first they test for.
  `EventStream.EventRoundTripIff` says exactly which written events are read back.
- **Stores without paging.** Stores to users' pages do not go to memory. Without paging nothing says whose a page is,
  and the coordinator goes by its last translation, where the simple simulator starts anew
  (`simulator/simple/simulator.c:416`). `EventMeaning.AccessMeans` has the exact condition,
  `EventMeaning.StoreAfterUserPageIsLost` the runs in which a store is lost.
- **Start values.** Pointers that are not set after allocation (`bus`, the higher level, the next buffer) are null.

## Model

| member | source | states |
|---|---|---|
| Msi.NewState | cache/msi.c:13-50 | a processor event ends in a state that permits it and is silent exactly when the old one did; a bus event only takes permission away |
| CacheSpec.Find | cache/state.c:81-93 | the way found is in the line's set and carries its tag; none is found only if no way of the set does |
| Coherence.TagAndSetNameTheLine | cache/state.h:26-27 | tag and set together name a line |
| Coherence.EveryTagAndSetIsALine | cache/state.h:26-27 | every pair of tag and set is that of a line: with the row above, a bijection |
| Coherence.TagIsReal | cache/state.h:27 | a 64-bit address never has the tag of an unused line |
| Coherence.TagsAreRealIff | cache/state.c:43 | which is so exactly if lines have several bytes or there are several sets |
| Coherence.WindowsApart | cache/state_test.c:125-137 | sets do not overlap |
| Coherence.SnoopEffect | cache/bus.c:38-62 | a snooped request, hit or miss, only takes permissions away, takes all it must from its own line, and changes no tag |
| Coherence.SettleEffect | cache/state.c:145-164 | the state change and the broadcast after it restore the single-writer property |
| Coherence.AccessKeeps | cache/state.c:121-165 | one access keeps single writer and unique tags through the recursion, leaves the line in every cache it visited in the state that the protocol calls for, and changes no tag below |
| Hierarchy.SingleWriterAlways | cache/state.c:121-165 | over every run of a fresh hierarchy, a line held modified by one cache of a bus is held by no other |
| Hierarchy.NoDuplicateTagsEver | cache/state.c:121-165 | over every run, no set holds a real tag twice |
| Hierarchy.LastAccessIsServed | cache/hierarchy.c:112-132 | after any run, the line of the last access is where its processor looks for it, its data cache or the one for all, or the instruction cache for a fetch: modified exactly if it was written or had been modified there, and else shared |
| Hierarchy.UnknownIsRefused | cache/hierarchy.c:113-120 | an access by a processor that there is not, or of a kind that is none of 0 to 3, changes and reports nothing |
| Hierarchy.RunAppend | cache/hierarchy.c:112-132 | a run over two traces is the second after the first, reports included |
| Effects.InformExactly | cache/state.c:95-102 | after a notice, every cache listed has the line invalid where it stands, and not one other way of any cache has changed |
| Effects.EntryExactly | cache/state.c:121-165 | in the cache that an access enters at, the way of the line or the one that makes room takes its tag, the state of the protocol and the time, and no other way changes |
| Effects.BelowExactly | cache/state.c:128-139 | in a cache below, the line is dropped exactly if a cache that missed lists it, and nothing else happens |
| Effects.MissesAreTold | cache/state.c:95-139 | every cache listed below one that missed has the line invalid when the access is over, unless the access passed through it |
| Effects.LastMissesAreTold | cache/hierarchy.c:112-132 | so after every run |
| Effects.PassedBusesHear | cache/bus.c:38-62 | on the bus of every cache that an access passes, the request of the protocol leaves the line shared or invalid in all others, or makes their next victim invalid if they do not have it; without a request nothing changes |
| Effects.AccessDemotesOthers | cache/state.c:121-165 | no cache gains any permission, but for the line of the access in the caches that it passes |
| Effects.ModifiedWasWritten | cache/hierarchy.c:126-130 | over every run of the protocol, a line that a cache has modified was accessed by a write of the run |
| Effects.ReadsWriteNothingBack | cache/state.c:140-142 | a run without writes reports its last-level misses and no write-back |
| Layout.TestedWindowsMeetIff | cache/state_test.c:125-137 | as tested, lines share ways exactly if they share a set |
| Layout.TestedValues | cache/state_test.c:100-177 | first ways and tags are those of the tests |
| Layout.WrittenWindowsMeetIff | cache/state.h:26 | as written, they share ways exactly if their sets are fewer apart than a set has ways |
| Layout.WrittenIsTested | cache/state.c:121-165 | with one way or one set, the access in the layout as written is that of a cache by itself, report included |
| Layout.WrittenFalseHitIff | cache/state.c:81-143 | as written, after line x alone was used, an access to y counts as a hit exactly if the tags agree and the set of x begins at a way of the set of y |
| Layout.FalseHitsExistIff | cache/state.h:26-27 | there is a run in which an access counts as a hit though its line was never used exactly if there are several sets of several ways: then lines 1 and 0, in that order, are one; with one way or one set no run of any length has one |
| Accounting.ReportsAreDue | cache/state.c:124-143 | an access reports a last-level miss, and after it a write-back exactly when the victim was modified, and else nothing |
| Accounting.RunAddsUp | cache/state.c:121-165 | over every run, accepted accesses are hits plus last-level misses, and reports are last-level misses plus write-backs |
| Accounting.WriteBacksBoundedByWrites | cache/msi.c:52-54 | for a last-level cache without a bus, modified lines plus write-backs never exceed the writes that reached it |
| Lru.RepairedVictimIsLeastRecent | cache/lru.c:3-17 | repaired, the victim is the first unused way or, where there is none, the first of those used least recently |
| Lru.LruInvariantHolds | cache/state.c:121-165 | over every run, ways carry the time of the last use of their line, and lines that are gone made room for a full set of newer ones |
| Lru.HeldIffFewNewer | cache/lru.c:3-17 | after every run, a line is held exactly if it was used and fewer lines of its set than there are ways were used since |
| Lru.MoreWaysHoldMore | cache/lru.c:3-17 | with as many sets, more ways hold whatever fewer ways hold |
| LruWritten.WrittenFreezesFullSets | cache/lru.c:3-17 | as written, over every run, a full set keeps for ever what it has in all ways but the first |
| LruWritten.HeldIffOnlySettlersNewer | cache/lru.c:3-17 | as written, after every run, a line is held exactly if it was used and is one of those that settled in the other ways, or only such lines of its set were used since |
| LruWritten.WrittenVictimIsLeastRecentIff | cache/lru.c:3-17 | as written, after every run, the line that makes room is least recently used by the trace exactly if its set has an unused way or the line in its first way was used no later than the others; in terms of the trace, exactly if fewer lines were used than there are ways or all settled lines were used after all others |
| LruWritten.NewestIsEvicted | cache/state.c:136-143 | three reads after which the line used last is the next to go, though the stamps call that least recent |
| LruWritten.WrittenIsLruIff | cache/lru.c:11 | as written, every run leaves what a least recently used cache would exactly if there is one way, or a way for each line of a set |
| CacheObjects.CacheState.GetLineLocation | cache/state.c:81-93 | the loop finds the way that the specification finds |
| CacheObjects.CacheState.FindLineToEvict | cache/lru.c:3-17 | the loop finds the victim of the specification, in both variants |
| CacheObjects.CacheSystem.InformLowerLevelCachesEviction | cache/state.c:95-102 | the lower caches that have the line drop it, and nothing else changes |
| CacheObjects.CacheSystem.HandleBusEvent | cache/bus.c:38-62 | every cache on the bus but the origin sees the request, in order |
| CacheObjects.CacheSystem.AccessCache | cache/state.c:121-165 | the recursive access in place is the access of the specification, reports included |
| CacheObjects.CacheSystem.AccessCacheInHierarchy | cache/hierarchy.c:112-132 | unknown processors and events are refused with 1; anything else is one step of the specification |
| Sharding.AccessLocal | cache/state.c:121-165 | an access changes nothing outside its line's sets, and what it does and reports depends on nothing outside them |
| Sharding.ShardEqualsShareOfWhole | simulator/distributed/coordinator.c:60-66 | fed its share of the trace, a hierarchy has the whole run's tags, states and stamps in its sets, and the same reports about its lines in the same order |
| Wiring.GrowingArray.Add | cache/bus.c:22-36 | a member comes after all earlier ones, which growth preserves |
| Wiring.CacheTable.SetupCacheState | cache/state.c:9-47 | a new cache is linked to nothing |
| Wiring.CacheTable.AddLowerLevelCache | cache/state.c:49-67 | both ends of a link are set, behind earlier ones |
| Wiring.CacheLevel.AddCachesToLevel | cache/hierarchy.c:44-77 | refused with 1, 2 or 3 without any change, or the caches join the level and, from the second on, its bus |
| Wiring.CacheHierarchy.AddLevel | cache/hierarchy.c:80-110 | refused with 1 or 2 without any change, or the level goes on top and every cache below is linked to its counterpart |
| WiringProofs.StepKeeps | cache/hierarchy.c:44-110 | each building step, on any level, before or after it was put on, keeps all links in order: they lead to the next level, both ends agree, nothing is listed twice, and caches that were there when the next level came go on to their counterparts |
| WiringProofs.BuildsAreOk | cache/hierarchy.c:44-110 | so does every sequence of steps from nothing, several levels under construction at once included |
| BuiltHierarchies.BuiltIsValid | cache/hierarchy.c:80-110 | what is built has links that rise through at most eight levels, so that accesses terminate |
| BuiltHierarchies.BuildsAreBounded | cache/hierarchy.c:86-89 | as long as nothing is added to a level that was put on, no such level has more data caches than there are processors |
| BuiltHierarchies.LateCacheIsNotCounted | cache/hierarchy.c:44-56 | a build in which a late cache makes two for one processor |
| BuiltHierarchies.BuiltIsUsableIff | cache/hierarchy.c:125-130 | the index of every processor is in range exactly if the first level has one data cache or at least one for each processor |
| BuiltHierarchies.BusCarriesTheLevel | cache/hierarchy.c:44-77 | the bus of a level with several caches carries each of them exactly once and no other |
| BuiltHierarchies.LowerFromBelow | cache/state.c:49-67 | a cache tells of evictions exactly the caches of the level below that go on to it, each once |
| Worker.SetupCache | simulator/distributed/worker.c:36-64 | 8 KB for data and 8 KB for instructions of each processor go on to 256 KB of its own and these to 8 MB for all, and each tells exactly those below it of evictions; the first level shares a bus and so does the second; all run the protocol and report; the links are valid and eight divides every number of sets |
| Worker.OneProcessorWrites | simulator/distributed/worker.c:36-64 | with several processors, over every run, a line that one first-level cache has modified is held by no other |
| Worker.OtherCachesAreTold | simulator/distributed/worker.c:36-64 | after every run, a processor's access that misses its first two caches leaves its other first-level cache without the line, and one that misses the top as well leaves every other second-level cache without it |
| Worker.ProcessBatch | simulator/distributed/worker.c:90-104 | contents and reports are those of the run over all accesses before the first refused one, which ends the batch with 1 |
| Dispatch.WorkerBuffer.Put | simulator/distributed/coordinator.c:68-105 | an access goes behind what was routed before; the buffer of an open send is not touched |
| Dispatch.WorkerBuffer.Send | simulator/distributed/coordinator.c:75-101 | a full buffer is sent once, the other becomes current, the index starts anew |
| Dispatch.Coordinator.ProcessCacheAccess | simulator/distributed/coordinator.c:60-105 | for each worker, batches sent and buffer pending are together its lines' accesses in order |
| Dispatch.Coordinator.FetchBlock | simulator/distributed/coordinator.c:295-306 | the loop ends and issues the fetches of the block |
| Dispatch.FetchesCoverBlock | simulator/distributed/coordinator.c:295-306 | they go through every line the block meets, each once, and at most one beyond |
| Dispatch.BatchesAreOneRun | simulator/distributed/worker.c:90-104 | batches one by one are one run |
| Dispatch.WorkersComputeTheWhole | simulator/distributed/coordinator.c:60-105 | what the batches and the pending buffer make of a worker's hierarchy is its part of the undivided simulation |
| Dispatch.WholeFromShares | simulator/distributed/coordinator.c:60-66 | every line of every cache of the undivided simulation is the one the worker of its set computed |
| LazyMemory.ReaderSeesIff | memory/memory.c:69-121 | the reader gets all that is there exactly if none of it lies at 2^42 or above |
| LazyMemory.ReadBackIff | memory/memory.c:69-173 | a value that was written completely is read back exactly if it is empty or ends at or below 2^42 |
| LazyMemory.GuardedByteIsLost | memory/memory.c:69-173 | a byte at 2^42 is stored and counted as written, and a read of it gets nothing |
| LazyMemory.ReadAfterWrite | memory/memory.c:69-173 | what the reader gets is the last write where both meet, and everything else as it was |
| MemorySpec.ReadSplit | memory/memory.c:84-92 | a read may be cut wherever the first part is all there |
| MemorySpec.StoreSplit | memory/memory.c:132-143 | so may a write, and the counts add up |
| MemorySpec.JoinStore | memory/memory_range.c:35-46 | storing in the first range with the addresses is storing in the memory as a whole |
| LazyMemory.IndicesNameThePage | memory/memory.c:98-101 | in a range of at most 2^40 bytes the two table indices name the page |
| LazyMemory.Memory.constructor | memory/memory.c:14-25 | a fresh range shows its file |
| LazyMemory.Memory.FindMiddle | memory/memory.c:58-67 | a missing table is made; what can be seen stays |
| LazyMemory.Memory.LoadPage | memory/memory.c:29-52 | a new page has the file's bytes for its addresses |
| LazyMemory.Memory.FindPage | memory/memory.c:58-67 | a missing page is loaded; what can be seen stays |
| LazyMemory.Memory.ReadInPage | memory/memory.c:94-119 | inside a page, the bytes that are there; the tree may grow, the contents stay |
| LazyMemory.Memory.WriteInPage | memory/memory.c:145-172 | inside a page, exactly the bytes written change |
| LazyMemory.GetMemoryForAddress | memory/memory_range.c:35-46 | the first range with the address, or none |
| MemoryAccess.ReadSimMemory | memory/memory.c:69-121 | over page borders and missing ranges: the bytes below 2^42 up to the first that is missing; contents stay |
| MemoryAccess.WriteSimMemory | memory/memory.c:125-173 | the bytes up to the first address that is missing are stored, and their number is returned |
| BlobMemory.Blob.constructor | memory/memory.c:330-350 | the slab is filled with the whole chunks of the file |
| BlobMemory.BlobMemories.ReadSimMemory | memory/memory.c:380-404 | inside a slab, the bytes that are there |
| BlobMemory.BlobMemories.WriteSimMemory | memory/memory.c:352-378 | inside a slab, exactly the bytes written change; outside all of them nothing does, with 0 |
| MemoryAgreement.SetUp | memory/memory.c:330-350 | set up on the same files, both hold the same bytes |
| MemoryAgreement.RunBoth | memory/memory.c:69-173 | for every sequence of reads and writes, each inside a range, tree and slabs both give the bytes and sizes that the contents determine, and end with the same contents |
| MemoryAgreement.RunFromFiles | memory/memory.c:352-404 | so started on the same files they give the same answers, those of the files |
| PageTable.WalkIsManualIff | pagetable/pagetable.c:41-132 | the walk equals that of section 4.5 of the Intel SDM volume 3A, flags included, exactly if no reserved size bit and no high bits of a large page are met; then the value for "not found" is no address |
| PageTable.UserIsConjunction | pagetable/pagetable.c:62-64 | a page is a user page exactly if every present entry on the way has bit 2 set |
| PageTable.WalkEndsAt | pagetable/pagetable.c:41-132 | where a walk ends at an entry, address and cache flag are given bits of that entry and of the address walked, reserved bits met or not; else it has found nothing |
| PageTable.WalkFramed | pagetable/pagetable.c:41-132 | a walk depends on the at most four entries it reads |
| PageTable.ReachedIsWalked | pagetable/pagetable.c:131 | where a small page is reached, the walk returns its frame and the place in it |
| PageWalk.VaddrToPhys | pagetable/pagetable.c:41-132 | the four stages, on memory that loads as it is read, compute the walk of what the memory holds, and change nothing that can be seen |
| PageWalk.ReservedBitIsTaken | pagetable/pagetable.c:65-68 | a memory in which a first-level entry with the size bit is taken for a page |
| PageWalk.MappedLooksMissing | pagetable/pagetable.c:85-90 | a memory in which bit 52 of a large page makes a mapped address look as if it were not |
| PageWalk.ChainWalk | pagetable/pagetable.c:41-132 | in a memory with four tables, entries with any low bits lead to a page that is a user's exactly if bit 2 is set, with bit 4 as cache flag |
| PageWalk.KernelAndUserPage | pagetable/pagetable.c:62-64 | entries that end in 3 lead to a page of the kernel, entries that end in 7 to a user's |
| PageWalk.WriteElsewhere | pagetable/pagetable.c:41-132 | a write that meets none of the entries read leaves address and flags |
| PageWalk.LastRecordStays | pagetable/pagetable.c:184-219 | after loading, a frame holds its last record, or what it held if it has none |
| PageWalk.EntryReadsBack | pagetable/pagetable.c:184-219 | every entry of every dumped frame that is there reads back as in the last record |
| PageWalk.LoadThenWalk | pagetable/pagetable.c:184-219 | walking the loaded memory is walking the dump as a map in which the last record wins |
| PageWalk.ReadPagetable | pagetable/pagetable.c:184-219 | all whole records are stored; 1 without a file or when it ends inside a table, else 0 |
| PageDump.LoadedEntry | pagetable/pagetable.c:184-219 | each entry of each table written to a dump is found at its place after loading, if no later table of the dump goes there |
| PageDump.LoadedElsewhere | pagetable/pagetable.c:184-219 | outside the tables of the dump, memory stays as it was |
| PageDump.CutOff | pagetable/pagetable.c:192-205 | what the loader's return code depends on is the number of bytes after the last whole table |
| PageList.ListTable | pagetable/pagetable.c:142-180 | the loops of one level: small pages in order, each once, or the code of the first table that cannot be read |
| PageList.PrintPagetable | pagetable/pagetable.c:134-182 | the same from the root; 0 exactly if every table met can be read |
| PageList.ListedIffReached | pagetable/pagetable.c:134-182 | a complete listing has exactly the 48-bit pages whose tables, size bits of the third level aside, lead to an entry |
| PageList.ListingAgreesIff | pagetable/pagetable.c:163-178 | the listing and the walk agree on a page exactly if the walk does not end in a two-megabyte page whose contents, read as a table, have a present entry for it |
| PageList.WholeListingAgreesIff | pagetable/pagetable.c:134-182 | so they agree on all pages exactly if no two-megabyte page met has such contents |
| PageList.ListingAgreesWithWalk | pagetable/pagetable.c:134-182 | where nothing is misread, a page is listed with an entry exactly if the walk reaches it, and the walk returns its frame plus the offset; where something is, the listing has what the large page holds and the walk goes into that page |
| PageList.LargePageIsListed | pagetable/pagetable.c:163-178 | a memory in which the listing is complete and lists address 0 with a number from a large page, into which the walk of address 0 goes |
| SharedMem.AlwaysInv | filereader/sharedmemreader.c:84-127 | every interleaving of producer and reader keeps the invariant |
| SharedMem.OneTokenEach | filereader/sharedmemreader.c:61-78 | for each buffer there is one token: a write permit, a read permit, the producer in it or the reader in it |
| SharedMem.NeverTheSameBuffer | filereader/sharedmemreader.c:114-127 | the reader is never in the buffer being filled |
| SharedMem.NoDeadlock | filereader/sharedmemreader.c:114-127 | the two sides are never both held up |
| SharedMem.AlwaysApart | filereader/sharedmemreader.c:84-127 | the last three in every reachable state |
| SharedMem.ReadsAreAPrefix | filereader/sharedmemreader.c:84-112 | between reads the reader has got as many bytes as it asked for, and they are the first the producer made |
| EventLoop.ProcessAccess | simulator/distributed/coordinator.c:237-272 | a load or store is translated, goes through to memory unless its page is a user page, and goes to its worker unless caching is disabled; the loop ends where no address is found |
| EventLoop.RunCoordinator | simulator/distributed/coordinator.c:219-313 | in place, on messages, lazily loaded memory and worker buffers, the loop leads to the memory, registers and accesses that the decoded events determine |
| EventLoop.Coordinate | simulator/distributed/coordinator.c:139-313 | so from the backing files, the registers received and the messages |
| EventLoop.ClockIsSum | simulator/distributed/coordinator.c:231-235 | the time of an access is the sum of the differences so far, modulo 2^64 |
| EventLoop.StoppedStays | simulator/distributed/coordinator.c:255-258 | what follows an address that cannot be translated makes no difference |
| EventLoop.WorkersFollowTheTrace | simulator/distributed/coordinator.c:60-105 | from the bytes of a written trace to the caches: each worker's batches and waiting accesses yield its part of one simulation of all accesses that the events make, reports included |
| EventMeaning.AccessMeans | simulator/distributed/coordinator.c:237-272 | by bits and bytes: which address an access stands for and when the loop gives up; a store to a page that is no user's changes exactly its bytes, anything else leaves memory alone; exactly one access with its processor, address, time and kind is handed over, or none if caching is disabled |
| EventMeaning.KernelStoreIsSeen | simulator/distributed/coordinator.c:260-263 | where there is room for it, such a store is read back as its number, cut to its size |
| EventMeaning.KernelEntryIsWalked | simulator/distributed/coordinator.c:260-263 | a page-table entry that the kernel writes is there for all later walks, and changes them in nothing else |
| EventMeaning.StoreAfterUserPageIsLost | simulator/distributed/coordinator.c:261 | runs in which a store without paging does not reach memory |
| EventMeaning.RegisterChangeMeans | control_registers/control_registers.c:15-17 | a change of a control register sets that one register and moves the clock |
| EventMeaning.RegisterChangeIsOwn | simulator/distributed/coordinator.c:273-280 | it changes no translation of any other processor, and counts at once for its own |
| EventMeaning.PageMeans | simulator/distributed/coordinator.c:281-289 | an invalidated page only moves the clock |
| EventMeaning.BlockMeans | simulator/distributed/coordinator.c:290-307 | a block hands over one fetch for each of its lines, and one beyond at most, and changes nothing else |
| MpiReader.MpiBuffer.constructor | filereader/mpireader.c:14-29 | a receive into the first buffer is open, nothing has been read |
| MpiReader.MpiBuffer.ReadFromBuffer | filereader/mpireader.c:32-92 | a read returns the next bytes whatever MPI does meanwhile; the open receive is into the buffer not being read |
| MpiReader.MpiBuffer.ReadsAreAPrefix | filereader/mpireader.c:32-92 | all results in order are a prefix of what was sent |
| EventCodec.ShortForm | filereader/filereader.c:94-97 | bit 7 of the first byte tells the forms apart, and the short one is the two bytes, highest first |
| EventCodec.LongForm | filereader/filereader.c:89-92 | shifts, swap and masks compute the bytes, highest first, without the flag and without bit 55, whatever the variable held before |
| EventCodec.HeadRoundTripIff | filereader/filereader.c:86-102 | difference, sign and number are read back and exactly their bytes consumed, exactly if the form is short or bit 55 is clear |
| EventStream.PayloadRoundTrip | filereader/filereader.c:49-84 | every payload is read back from its bytes, whatever the bits of an access that the readers do not look at |
| EventStream.SizeIsPower | filereader/filereader.c:56 | the size of an access is two to the power of the low four bits, cut to eight bits |
| EventStream.EventRoundTripIff | simulator/distributed/coordinator.c:237-290 | an event written with the number of its kind is read back, whatever follows it, exactly if its difference fits and no kind that is tested for earlier has that number |
| EventStream.OtherNumbersEnd | simulator/distributed/coordinator.c:308-311 | any other number ends the trace |
| EventStream.StreamRoundTripIff | simulator/distributed/coordinator.c:224-311 | a written stream is read back as its events exactly if each of them is |
| EventReaders.AssembledIsDecoded | filereader/filereader.c:86-102 | the head put together from two, six and one bytes is the head of the format |
| EventReaders.TraceFile.NextEventId | filereader/filereader.c:86-102 | the next head of the file and its length, or nothing where the file ends before it does |
| EventReaders.TraceFile.GetPayload | filereader/filereader.c:49-84 | the next payload, or nothing where the file ends before it does |
| EventReaders.TraceFile.ReadTrace | simulator/simple/simulator.c:391-522 | the loop reads the events that the bytes stand for, at most one more than the limit |
| EventReaders.ReceiveEventId | filereader/mpireader.c:130-145 | the head is that of the bytes sent, whichever messages its pieces lie in |
| EventReaders.ReceivePayload | filereader/mpireader.c:95-126 | field by field, the payload of the bytes sent |
| EventReaders.ReceiveEvent | simulator/distributed/coordinator.c:224-290 | the next event of the messages is the next event of their bytes, as for a file |
| EventReaders.ReceiveTrace | simulator/distributed/coordinator.c:219-311 | the loop over the messages reads the events that their bytes stand for, up to the first unknown one or the limit |
| EventReaders.SharedEvents | filereader/sharedmemreader.c:84-187 | in every reachable state of the shared buffers, the bytes got stand for the first events that the producer wrote |
| OutputQueue.Queue.Append | simulator/distributed/output.c:36-47 | a received buffer goes behind the last one |
| OutputQueue.Queue.Take | simulator/distributed/output.c:116-121 | the first pending miss goes, and a used-up buffer with it |
| Merge.ReceiveKeeps | simulator/distributed/output.c:25-50 | a received buffer keeps written plus pending equal to received, for each worker and in order |
| Merge.TakeConserves | simulator/distributed/output.c:110-121 | so does writing one out |
| Merge.TakeMerges | simulator/distributed/output.c:99-121 | taking the smallest keeps the output in order, and nothing yet to come is earlier |
| Merge.TakeGoesOn | simulator/distributed/output.c:99-121 | taking the smallest of what has arrived is the next step of the merge of all that will ever be sent |
| Output.OutputProcess.Receive | simulator/distributed/output.c:25-50 | the next buffer, from any worker, goes to that worker's queue |
| Output.OutputProcess.Select | simulator/distributed/output.c:100-108 | the earliest first miss, the lowest worker among equals |
| Output.OutputProcess.Round | simulator/distributed/output.c:99-130 | one miss is written, the smallest; afterwards every worker has a buffer again, unless the one that ran out never sends again and everything has arrived |
| Output.OutputProcess.Run | simulator/distributed/output.c:99-130 | the output is the merge by time of all that the workers send, up to the end of the first stream that ends, whatever the order of arrival; it is in the order of time and keeps each worker's order |

## Left out

- MOESI (`cache/moesi.c`), the one-level memory (`memory/memory.c:194-326`) and the 32-bit walk (`pagetable/pagetable.c:17-38`): commented out, not well-formed, or never called.
- Inclusion between levels: not kept by the design. A refill announces the incoming address, and tag-only hits revive invalid lines without asking the higher level.
- Pointers between caches, buses and levels are indices into tables. The arrays that grow in place are modelled once, as `Wiring.GrowingArray`; the tables themselves are sequences.
- CacheObjects.CacheSystem.AccessCache: the functions for coherency and eviction are fixed to MSI and LRU; the function pointers of `setup_cachestate` and its unused write-back flag are not modelled.
- Coherence.TagIsReal: caches with one set of one-byte lines are not valid in the model, because there the last address has the tag of an unused line (`Coherence.TagsAreRealIff`, `Coherence.LastLineLooksUnused`).
- CacheObjects.CacheSystem.AccessCacheInHierarchy: a first level with several caches but fewer than processors is excluded, because the program then reads past its array (`BuiltHierarchies.BuiltIsUsableIff`).
- Wiring.CacheTable.SetupCacheState: the optional higher cache, which the simulators never pass, and the check of the associativity are left out; the check compares it with the size in bytes, and the model asks for as many lines as ways. The initial lines are those of the constructor of `CacheObjects.CacheState`.
- Wiring.CacheHierarchy.AddLevel: instruction caches above a level without them are excluded, because the program then reads past an array.
- WiringProofs.StepKeeps: caches are set up for one level and added to it once, and a level is put on once; otherwise a cache would lie above itself or on two buses.
- WiringProofs.BuildsAreOk: likewise.
- Worker.SetupCache: the 16 equal hierarchies that a worker drives side by side are one, and the reports of `cache_miss_func`, whose body is commented out, are the model's `reports`.
- Dispatch.WorkerBuffer.Send: the number of MPI processes is 11 to 16, so that eight worker buffers exist and a full one is sent once. MPI may read the buffer of an open send at any time; its own errors are left out.
- Dispatch.Coordinator.FetchBlock: program counters do not wrap around 2^64.
- EventLoop.RunCoordinator: processors and registers of the events are within the program's arrays, and a store has at most the eight bytes that an event carries; otherwise the program reads or writes outside its variables. The two variables that are not initialised are parameters. The counters are left out.
- MemoryAccess.ReadSimMemory: copies are those of the memcpy branches, sizes are not cut to 32 bits, and a backing file shorter than its range, which ends the program, does not occur.
- BlobMemory.Blob.constructor: the file is as long as its range; a shorter one makes the program return without a memory. Nothing is said about the bytes after the last whole chunk, which are not initialised.
- MemoryAgreement.RunBoth: the slabs read through a null pointer where no range has the address, and past their end where an access leaves one, so both are compared on accesses inside one range, below the reader's guard.
- PageTable.WalkIsManualIff: the manual's other reserved bits and access rights play no part in the address and are not modelled.
- PageWalk.VaddrToPhys: addresses and entries are unbounded natural numbers; only masks and shifts of 64-bit values matter to the results.
- SharedMem.AlwaysInv: `read_from_smem` is modelled as the steps that it takes, not as a method, because the producer runs between them. The producer is not part of the repository; it waits, fills and posts in turn. Semaphores are counters, their creation and the start-up in `simulator/distributed/input_reader.c:114-130` are left out. Nothing is said about fairness.
- MpiReader.MpiBuffer.ReadFromBuffer: enough is sent for each read, and messages have the size of a buffer. MPI errors are left out.
- EventReaders.SharedEvents: the decoder of the shared-memory reader has the same text as that of the message reader and is not repeated as a method.
- EventReaders.ReceiveTrace: what the messages hold is enough for the loop to end; it would wait for ever otherwise.
- Trace headers and mapping files: plumbing.
- Output.OutputProcess.Run: the start-up loop (`simulator/distributed/output.c:52-67`) does not wait for every worker, and the write at line 111 emits a pointer; the model starts with a buffer for each worker and emits the miss.
- Printing, counters, argument parsing, MPI datatypes, `free_*` functions and reading of gem5 traces.
