# Memory, swap, scheduling and messages of the carpincho system

The system runs processes ("carpinchos") that ask a kernel for semaphores, IO and memory. The kernel
schedules them and passes memory requests on to a memory server, which keeps a heap of blocks for every
process, spreads the pages of the heaps over frames, and keeps the pages that do not fit in a swap server.
This project models these four parts and the byte formats between them, and proves what they promise each
other.

* `Base.dfy`: bytes, words, page names, results, searching and counting.
* `Swamp.dfy`: the swap server, with its table of slots and its accounts, as values and as a class.
* `Paging.dfy`, `PagingInvariant.dfy`, `PagingRun.dfy`, `PagingTheorems.dfy`, `Capacity.dfy`: the pager
  (frame table, frame contents, TLB, page descriptors, LRU and M-CLOCK, quotas or one common pool) on
  values, its invariant together with the swap server, and its runs against a memory that never evicts.
* `ClockHistory.dfy`, `Tlb.dfy`: what the bits of M-CLOCK say about the past of a run, and what requests do to
  the TLB.
* `Compaction.dfy`, `Quotas.dfy`: what the compaction of one process does to the pager of all, with a common
  pool and under quotas.
* `Cache.dfy`, `Pager.dfy`: the pager as it runs, with tables updated in place over one buffer of bytes,
  proved equal to the functions of `Paging.dfy`.
* `Allocator.dfy`, `AllocatorTheorems.dfy`, `AllocatorProcess.dfy`: the block list of one process, on
  values, its invariants, and the class that updates it in place.
* `Transfer.dfy`: how a range of addresses is cut into one piece per page and copied.
* `Service.dfy`, `ServiceTheorems.dfy`, `ServiceRuns.dfy`: requests of the memory server on a heap
  together with its bytes, and whole runs of requests by any processes.
* `Completion.dfy`: when accesses to several pages, and the creation of several pages, complete.
* `Spaces.dfy`, `MemoryServer.dfy`: the memory server as it runs, one pager and one block list per
  process, proved to do what `Service.dfy` says and to complete when `Completion.dfy` says.
* `Kernel.dfy`, `ShortTerm.dfy`: the scheduler threads as a machine that takes their steps in any order,
  and the choice of the next process.
* `Wire.dfy`, `Connection.dfy`: requests, streams of requests and packets, and what a server makes of them
  when the connection is closed before all of a request has arrived.

The classes are tied to the functions by their postconditions: `Swamp.Server`, `Cache.Frames`,
`Pager.Memory`, `AllocatorProcess.Process` and `MemoryServer.Server` state their whole new state. So the
chain from a client to the swap file is: a method of `MemoryServer.Server` answers as `ServiceRuns.Serve`
does; the space it speaks about is the flat memory of `PagingRun`; and `Pager.Memory` keeps that flat
memory whatever is evicted.  A request of `MemoryServer.Server` fails only in the pager, and
`Completion.Completes`, `Completion.Creates` and `Completion.Enough` tell from the state before it when it does not.

## How the code is followed where it departs from its intent

* The lookup of a split block shadows its parameter and always answers 0
  (`memoria/src/memory.c:1880-1891`). `Allocator.Lookup` has both that lookup and the one used everywhere
  else; `AllocatorTheorems.InFreeKeepsTiling` says exactly when the shadowed one does harm.
* The position in the caller's buffer is set to the size of the previous piece instead of being increased
  (`memoria/src/memory.c:2201`, `2496`, `2575`). It is modelled as it is; transfers are right for all
  bytes exactly when they touch at most two pages.
* The answer of the swap server to the question for pages is turned into a boolean, so -1 counts as yes
  (`memoria/src/memory.c:1893-1900`). It is modelled as it is: the answer is a parameter.
* The test whether a block is on a page runs too far (`memoria/src/memory.c:2596-2612`); it is right for the
  first page, the only one that compaction asks about.
* A compaction takes the descriptor of a page out of the list of its process and does nothing to its frame
  (`memoria/src/memory.c:2649-2686`). The frame is never free again (`memoria/src/memory.c:779-785`) and never in a
  victim list again, because those are built from the descriptors (`memoria/src/memory.c:916-952`); here it is a
  `Lost` frame. With a common pool this takes frames from everybody: `Compaction.CompactionEndsTheServer` is a run
  in which the next access of another process finds no victim, and `Compaction.LruGoesOn` and
  `Compaction.PoolGoesOn` say exactly when the others still can. Under quotas a compaction commutes with every
  request of the others (`Quotas.CompactionCommutes`), so there `MemoryServer` leaves the tables as they were.
  It takes no misuse to start one: whoever releases the last block in use is compacted
  (`AllocatorTheorems.LastReleaseCompacts`).
* A request for no bytes dereferences a null block unless a small free block is given away whole
  (`memoria/src/memory.c:2412-2414`); the exact condition is `AllocatorTheorems.ZeroBytesCrash`, and
  `AllocatorTheorems.ZeroBytesDoCrash` gives two requests that kill the server.
* Under M-CLOCK a page evicted before its first write is neither stored nor found again
  (`memoria/src/memory.c:1163-1175`); an access to it fails, and `PagingTheorems.AccessFails` says exactly
  which accesses fail. `Capacity.UnwrittenPageIsLost` is a run with such an access; runs that write every page
  as soon as it is created have none (`Capacity.FittingRunsComplete`).
* The swap server checks the quota of the first account only and indexes its list of files with the
  position of an account for any other (`swamp-v2/src/swamp.c:419-456`); with a full list its search for a
  free slot runs over the end (`swamp-v2/src/swamp.c:508-525`). Both are modelled as a crash, and
  `Swamp.WriteAccepted` says exactly when each happens; `Swamp.SecondProcessCrashes` is a run of two writes
  that ends in the first of them.
* The medium-term scheduler locks the same lock twice (`kernel/src/kernel.c:1455`, `1460`).
  `Kernel.SuspensionIsFinal` states what follows, and `Kernel.SuspensionHappens` is a run that gets there.
* The short-term scheduler may take a token and then skip (`kernel/src/kernel.c:1302-1304`).
  `Kernel.LeaksNeverHeal` states what follows.
* An IO request is queued before the process is in the blocked list (`kernel/src/kernel.c:926-929`), and the
  entry found in that list is removed by its index after the list may have changed
  (`kernel/src/kernel.c:1579-1604`), so a wake-up can be lost. `Kernel.WakeUpsAreKept` says exactly when none is;
  `Kernel.WakeUpsCanBeLost` and `Kernel.AnotherIsWoken` are runs that lose one in either way.
* The result of `recv` is never looked at (`kernel/src/kernel.c:594-638`, `memoria/src/server.c:78-137`), so a
  request that is cut off is processed with whatever lies in memory, and a CPU reads the body of a request whatever
  its code was (`kernel/src/kernel.c:842-848`). `Connection.ServerGetsTheRequest` and
  `Connection.CpuGetsTheRequest` say exactly when what is processed is what was sent.
* The cast in the estimate binds to `alfa` alone (`kernel/src/kernel.c:1344-1346`), so for `alfa` strictly
  between 0 and 1 the last burst has no weight: `ShortTerm.EstimateIsTheAverage`.

## Model

| member | source | states |
|---|---|---|
| Swamp.WriteKeeps | swamp-v2/src/swamp.c:260-361 | storing a page that has no slot leaves exactly that page in the slot that was free, moves and changes no other page, and keeps the accounts equal to the slots counted |
| Swamp.WritePlaces | swamp-v2/src/swamp.c:260-361 | a write with a free slot opens an account at the end of the list for a process that has none, stored or not, and puts a page that is stored into the first free slot; with none it changes nothing |
| Swamp.ReadKeeps | swamp-v2/src/swamp.c:589-697 | reading answers with the stored page if there is one and gives exactly its slot back, so the page is gone from swap, some slot is free, and nothing else has moved; it answers -1 exactly when the process has no account, and nothing at all exactly when it has one and the page is not stored |
| Swamp.WriteAccepted | swamp-v2/src/swamp.c:419-478 | a page is stored exactly when there is room and the quota test passes, and the server dies exactly when swap is full or the faulty branch of the test is taken with a second account |
| Swamp.SecondProcessCrashes | swamp-v2/src/swamp.c:435-450 | under the fixed policy the first page of a second process kills the server, however many slots are free |
| Swamp.SlotsConserved | swamp-v2/src/swamp.c:363-376 | free slots and the counts of all accounts always add up to the number of slots |
| Swamp.FreshKeeps | swamp-v2/src/swamp.c:527-544 | the books are straight at the start and no page is stored |
| Swamp.AdjustKeeps | swamp-v2/src/swamp.c:480-506 | changing one slot and the count of its owner by the same amount keeps the books straight |
| Swamp.Server.FindRoom | swamp-v2/src/swamp.c:508-525 | finds the first free slot, and none exactly when the loop would leave the list |
| Swamp.Server.FindPage | swamp-v2/src/swamp.c:699-707 | finds the slot that keeps a page exactly when some slot does |
| Swamp.Server.CheckAllocation | swamp-v2/src/swamp.c:419-478 | the loops over accounts, files and counters admit a process with an account exactly when that account is the first one and below the quota, and run past the list of file names exactly when it is not the first; with a common pool they admit everybody |
| Swamp.Server.WritePage | swamp-v2/src/swamp.c:260-361 | the slot table, the file and the accounts change exactly as the specification of a write says |
| Swamp.Server.ReadPage | swamp-v2/src/swamp.c:589-697 | the slot table and the accounts change exactly as the specification of a read says, and the page is returned |
| Paging.CandidateIsHeld | memoria/src/memory.c:916-952 | the victim list holds exactly the pages in frames that may be taken on behalf of the process |
| Paging.CandidatesInFrameOrder | memoria/src/memory.c:1340-1360 | the victim list is strictly sorted by frame number |
| Paging.Least | memoria/src/memory.c:1297-1324 | the position found is the first one of the least key at or after the start |
| PagingInvariant.SingleCopy | memoria/src/memory.c:1125-1191 | a page is in exactly one frame or in exactly one swap slot, never in both; only a page never written under M-CLOCK may be in neither |
| PagingInvariant.TablesAgree | memoria/src/memory.c:516-566 | a TLB entry, a frame and a page descriptor always tell the same story, and the entry of a page without a descriptor names the frame lost with it, so the stale-entry recovery and the branch for a frame that already has an entry are never taken |
| PagingInvariant.LoadKeeps | memoria/src/memory.c:1574-1600 | loading the TLB with any choice of entry keeps it in agreement with the frames, and no frame gets two entries |
| PagingInvariant.EvictKeeps | memoria/src/memory.c:1125-1186 | an eviction keeps every table in agreement, loses no content, and frees a frame the process could take |
| PagingInvariant.FaultInKeeps | memoria/src/memory.c:1125-1191 | a page fault keeps every table in agreement and loses no content, although the swap server forgets what it returns |
| PagingRun.ReadKeeps | memoria/src/memory.c:967-1013 | a read that completes returns the bytes of the flat memory, and nothing when the range leaves the page |
| PagingRun.ReadReturns | memoria/src/memory.c:967-1013 | a completed read answers exactly when the range lies in the page, and byte `k` of the answer is byte `offset + k` of the page in the flat memory |
| PagingRun.WriteKeeps | memoria/src/memory.c:1015-1063 | a write that completes changes that range of the flat memory and no other byte |
| PagingRun.CreateKeeps | memoria/src/memory.c:787-914 | a new page starts blank in a frame of its own, and every other page keeps its content |
| PagingRun.PresentBounded | memoria/src/memory.c:779-785 | present pages never outnumber the frames, so the first test of the source never decides anything |
| PagingTheorems.PagingIsInvisible | memoria/src/memory.c:967-1063 | in every run by any processes, under both replacement algorithms and both allocation policies, the answers are those of a memory that never evicts |
| PagingTheorems.EveryRunIsInvisible | memoria/src/memory.c:3-33 | the same from the moment the server starts with at least one frame and one TLB entry |
| PagingTheorems.LruEvictsTheOldest | memoria/src/memory.c:1297-1324 | under LRU the victim is the candidate whose last creation, read or write in the run is the oldest |
| PagingTheorems.ClockMeetsItsSpecification | memoria/src/memory.c:1340-1433 | from the pointer to the end the victim is the first of those without the use bit and without the modified bit, or without the use bit, or without the modified bit, or of all; exactly the use bits passed over by the second sweep are cleared, and the pointer ends up just after the victim |
| PagingTheorems.ClockAlwaysFinds | memoria/src/memory.c:1340-1433 | in every reachable state an absent page finds a victim: the pointer stays below the number of candidates |
| PagingTheorems.QuotasIsolate | memoria/src/memory.c:779-785 | with quotas nobody exceeds the quota or loses a frame, and a request never changes which pages of another process are in memory, or where |
| PagingTheorems.EvictFails | memoria/src/memory.c:1203-1265 | an eviction fails exactly when there is no candidate, or the victim must be stored and the swap server would not store it; it ends with no candidate exactly when the hand is beyond the list, and with the death of the swap server exactly when that is full or its first account is not that of the victim |
| PagingTheorems.SoundStep | memoria/src/memory.c:787-1063 | a request that completes answers and leaves behind what the memory without eviction would, whatever frames have been lost before |
| PagingTheorems.ResolveFails | memoria/src/memory.c:1125-1191 | whatever frames have been lost, an access fails exactly when its page is absent and there is no victim, or it cannot be stored, or the page was evicted before its first write; and which of these it was decides the fault |
| PagingTheorems.AccessFails | memoria/src/memory.c:516-540 | as long as no frame has been lost an access fails exactly when its page is absent and the victim cannot be stored or the page was evicted before its first write |
| PagingTheorems.CreateFails | memoria/src/memory.c:787-805 | a page cannot be created exactly when no frame is free, or under quotas the process has used up its own, and it has none to give up or its victim cannot be stored |
| PagingTheorems.CreateTakesFree | memoria/src/memory.c:779-805 | while a frame is free and, under quotas, the process is below its quota, a page is always created, in the first free frame: nothing is evicted, no page and no clock hand moves, and the process owns one frame more |
| PagingTheorems.CreateEvicts | memoria/src/memory.c:787-805 | otherwise a page created takes the frame of the victim and no other, and creating it fails exactly when there is no victim or it cannot be stored |
| ClockHistory.StepMarks | memoria/src/memory.c:998-1000 | under M-CLOCK a request marks the page it creates, reads or writes as used, clears the bit of any other page exactly when it evicts and its second sweep goes over that page, and marks a page as modified exactly when it writes it |
| ClockHistory.BitsTellThePast | memoria/src/memory.c:1340-1433 | over every run under M-CLOCK a page is marked as used exactly when it has been created, read or written after the last sweep over it, and as modified exactly when it has been written |
| ClockHistory.BitsTellTheWholePast | memoria/src/memory.c:1340-1433 | the same since the server started, with nothing before |
| Tlb.AccessLooks | memoria/src/memory.c:516-566 | a read or write loses no entry of the TLB but that of the page it evicts; its own page is put into the first empty entry, or in the place of the one given up when none is empty, and when it had an entry nothing changes |
| Tlb.CreateLooks | memoria/src/memory.c:1574-1600 | the same for a new page, which is never in the TLB before |
| Capacity.PlacesConserved | memoria/src/memory.c:1125-1265 | when no page can be lost (always under LRU, under M-CLOCK once every page has been written) pages, free frames, free slots and the frames lost by compactions add up to memory and swap together |
| Capacity.AccessNeedsRoom | memoria/src/memory.c:1125-1191 | under both algorithms and both memory policies an access to a page that will be stored completes when a slot is free; when no page can be lost it fails exactly when its page is absent and no slot is free |
| Capacity.AccessFailsWhenFull | swamp-v2/src/swamp.c:508-525 | with a common pool and no page that can be lost an access fails exactly when its page is absent and there are as many pages as frames and slots together |
| Capacity.CreateFailsWhenFull | memoria/src/memory.c:787-805 | with a common pool and no page that can be lost a page cannot be created exactly when there are as many pages as frames and slots together |
| Capacity.QuotasLeaveRoom | memoria/src/memory.c:779-785 | when the quotas of all processes fit in memory a process without a frame finds a free one |
| Capacity.CreateNeedsSpare | memoria/src/memory.c:787-805 | a page can be created whenever a place is spare, with a common pool and with quotas that fit in memory |
| Capacity.AccessLeaves | memoria/src/memory.c:967-1063 | a completed read or write takes no free frame or slot from anybody, a page written once stays worth a slot, and an access to a page in memory moves no page |
| Capacity.CreateLeaves | memoria/src/memory.c:787-914 | a completed creation uses up one place at most and leaves the new page in memory |
| Capacity.FittingRunsComplete | memoria/src/memory.c:787-1063 | a run that needs no more places than are spare completes exactly when no request in it is for an absent page at a moment when nothing is spare, which is always so when it leaves one place spare; it answers as a memory that never evicts: under LRU, and under M-CLOCK when every page is written straight after its creation; with a common pool, and with quotas that fit |
| Capacity.FittingRunsCompleteFromBoot | memoria/src/memory.c:3-33 | the same from the moment the server starts: the pages the run creates are counted against frames and slots together, or slots alone under quotas |
| Capacity.OnceFull | memoria/src/memory.c:967-1063 | once nothing is spare the pages in memory stay, so a run that creates no page meets the condition exactly when it asks only for pages that are in memory then |
| Capacity.LruIsCareful | memoria/src/memory.c:1163-1175 | under LRU the two conditions on what has been written exclude no run and no state |
| Capacity.UnwrittenPageIsLost | memoria/src/memory.c:1163-1175 | a run under M-CLOCK, in one frame, after which an access to a page of the process fails |
| Completion.ReadCompletes | memoria/src/memory.c:967-1013 | when a read completes, and that it leaves every place there was; exact under LRU with a common pool whatever has been compacted, and otherwise when no page can be lost and no frame has been |
| Completion.WriteCompletes | memoria/src/memory.c:1015-1063 | the same for a write |
| Completion.CompletesBoth | memoria/src/memory.c:2477-2497 | accesses to several pages complete under conditions on the state before the first of them |
| Completion.CreateCompletes | memoria/src/memory.c:787-805 | when a page can be created, and what that uses up; exact under LRU with a common pool, whatever has been compacted |
| Completion.EnoughCompletes | memoria/src/memory.c:967-1063 | with a place to spare, no frame lost and no page that can be lost, accesses to any known pages complete |
| Compaction.OrphanKeeps | memoria/src/memory.c:2649-2686 | the compaction of a process with one page loses the frame of that page for good and changes no byte, descriptor or slot of anybody else |
| Compaction.CompactionIsInvisible | memoria/src/memory.c:2649-2686 | in every run of requests and of compactions of processes with one page that completes, under every policy, all reads are answered as by a memory that never evicts, and one frame is lost for every compaction |
| Compaction.PoolGoesOn | memoria/src/memory.c:1125-1191 | with a common pool, after any such run, an access fails exactly when its page is absent and the clock hand is beyond the frames that are left, or the victim cannot be stored, or the page was lost; creating a page fails exactly when no frame is free and there is no victim or it cannot be stored |
| Compaction.LruGoesOn | memoria/src/memory.c:1297-1324 | under LRU with a common pool an access to an absent page completes, and a page can be created, exactly while fewer processes have been compacted than there are frames, and pages and lost frames leave a place over |
| Compaction.LruRunsGoOn | memoria/src/memory.c:1297-1324 | the same for every run since the server started, in terms of what was asked for |
| Compaction.CompactionEndsTheServer | memoria/src/memory.c:1297-1324 | in one frame, after another process has taken it and released its only block, the access that would have completed before the compaction finds no candidate |
| Quotas.StepCommutes | memoria/src/memory.c:936-952 | under quotas the compaction of a process with one page and a request of another process can be exchanged: same tables, same answer, same failure |
| Quotas.CompactionCommutes | memoria/src/memory.c:936-952 | so under quotas a run of requests of the others completes or fails after a compaction as without it, with the same answers |
| Cache.CutPatch | memoria/src/memory.c:598-618 | writing inside one frame of the buffer changes that frame and no other |
| Cache.Frames.constructor | memoria/src/memory.c:3-33 | every frame starts filled with underscores |
| Cache.Frames.Write | memoria/src/memory.c:598-618 | the range of that frame changes and nothing else; a range that leaves the frame is refused and changes nothing |
| Cache.Frames.Clear | memoria/src/memory.c:658-671 | the frame is blank again and no other frame has changed |
| Cache.Frames.Read | memoria/src/memory.c:683-712 | the bytes of the range, or nothing when it leaves the frame |
| Pager.Memory.constructor | memoria/src/memory.c:3-33 | the server starts empty and in agreement with an empty flat memory |
| Pager.Memory.ListCandidates | memoria/src/memory.c:916-952 | the loop builds the victim list of the specification |
| Pager.Memory.Oldest | memoria/src/memory.c:1297-1324 | the loop finds the first candidate of the least time stamp |
| Pager.Memory.SweepOnce | memoria/src/memory.c:1340-1433 | one sweep stops at the first candidate of its class, and the second one clears the use bits it goes over |
| Pager.Memory.ClockSweeps | memoria/src/memory.c:1340-1433 | the four sweeps stop at the first candidate of the least class from the pointer on, and clear exactly the use bits the specification says |
| Pager.Memory.ChooseVictim | memoria/src/memory.c:1130-1151 | fails exactly when the specification does, and otherwise leaves the victim, the use bits and the pointer it says |
| Pager.Memory.MakeRoom | memoria/src/memory.c:1203-1258 | empties the frame of the victim, after storing it if need be, exactly as the specification says |
| Pager.Memory.Fault | memoria/src/memory.c:1125-1191 | a page fault leaves every table as the specification says |
| Pager.Memory.UpdateTlb | memoria/src/memory.c:1574-1600 | loads the TLB as the specification says |
| Pager.Memory.Locate | memoria/src/memory.c:516-540 | finds the frame of a page through the TLB, the frame table or swap; the recovery of a stale entry is dead code |
| Pager.Memory.Read | memoria/src/memory.c:967-1013 | a read that completes returns the bytes of the flat memory and leaves it as it was, and leaves the tables that the specification of a read gives (what these record of the page is `ClockHistory.StepMarks` and `Tlb.AccessLooks`) |
| Pager.Memory.Write | memoria/src/memory.c:1015-1063 | a write that completes patches the flat memory in that range, and only there |
| Pager.Memory.AddPage | memoria/src/memory.c:787-914 | a page that is created is the next of its process, blank, and no other page changes; the frame it gets is the one that the specification of a creation gives (free or taken: `PagingTheorems.CreateTakesFree`, `PagingTheorems.CreateEvicts`) |
| Pager.Memory.Orphan | memoria/src/memory.c:2649-2686 | the descriptor of the only page of a process is taken away; everybody else keeps everything |
| AllocatorTheorems.TiledIsOrdered | memoria/src/memory.c:2021-2053 | in a tiling every later block lies beyond every earlier one |
| AllocatorTheorems.CoveredOnce | memoria/src/memory.c:2086-2104 | no byte belongs to two blocks, header and data included |
| AllocatorTheorems.IndexByAddress | memoria/src/memory.c:2118-2134 | in a tiling the lookup by address finds the block itself |
| AllocatorTheorems.InFreeKeepsTiling | memoria/src/memory.c:1969-2019 | first fit keeps the tiling exactly when the remainder does not go to the wrong place, which only the shadowed lookup can do, cutting any block but the first |
| AllocatorTheorems.ShadowedLookupBreaksTiling | memoria/src/memory.c:1880-1891 | a list of two blocks that the shadowed lookup spoils |
| AllocatorTheorems.InFreeKeepsCoalesced | memoria/src/memory.c:1969-2019 | first fit never makes two free neighbours, because the block cut was free and its right neighbour was not |
| AllocatorTheorems.PagesNeededIsLeast | memoria/src/memory.c:1270-1282 | the number of pages asked for is enough, and no smaller number is |
| AllocatorTheorems.PlannerIsRight | memoria/src/memory.c:1902-1967 | each answer of the planner means what its strategy needs, and a refusal means that nothing fits and the quota or the swap server forbids more pages |
| AllocatorTheorems.NewPagesWithinQuota | memoria/src/memory.c:1937-1954 | with quotas a process that exists never gets more pages than its quota |
| AllocatorTheorems.MemallocGrants | memoria/src/memory.c:2328-2419 | a granted block has at least the size asked for, lies inside the pages, shares no byte with any block in use, and all blocks in use stay; a refusal changes nothing |
| AllocatorTheorems.MemallocIsExact | memoria/src/memory.c:1902-2081 | the whole of an allocation: the first free block of at least the size asked for is given away, cut to that size when more than nine bytes are left over, with the rest free behind it (behind the first block with the shadowed lookup), and whole otherwise; when there is none, a block of exactly that size is put after the last one, in as few pages as are enough; it is refused exactly when those are more than the quota or the swap server is gone |
| AllocatorTheorems.MemallocFirstIsExact | memoria/src/memory.c:2337-2360 | the first allocation of a process makes one block of exactly the size asked for, in as few pages as are enough |
| AllocatorTheorems.ReleaseKeeps | memoria/src/memory.c:2740-2791 | both merges together leave no two free neighbours, keep the tiling, and move or lose no block in use |
| AllocatorTheorems.FreeReleases | memoria/src/memory.c:2708-2791 | a release succeeds exactly for the data position of a block in use and frees exactly that block |
| AllocatorTheorems.FirstPageTestIsRight | memoria/src/memory.c:2596-2612 | for the first page the test that runs too far still tells exactly the blocks that start on it |
| AllocatorTheorems.CompactsOneBlock | memoria/src/memory.c:2614-2647 | when all blocks on the first page are free there is exactly one, it is the first of the list, and it covers the page unless it is the only block |
| AllocatorTheorems.CompactsExactly | memoria/src/memory.c:2614-2647 | a process is compacted exactly when its first block is free and is the only one or reaches over the first page |
| AllocatorTheorems.LastReleaseCompacts | memoria/src/memory.c:2688-2706 | a process that releases its last block in use is always compacted |
| AllocatorTheorems.CompactionKeeps | memoria/src/memory.c:2649-2686 | removing the first page and its block leaves the other blocks in order, each with its size and its flag, moved down by the length of the block removed; it keeps the tiling, still fits with one page fewer, and leaves nothing to compact |
| AllocatorTheorems.CompactsAtMostOnce | memoria/src/memory.c:2798-2804 | the retry loop compacts at most once |
| AllocatorTheorems.MemfreeIsExact | memoria/src/memory.c:2708-2810 | the whole of a release: it is done exactly at the data of a block in use, which is freed and joined with its free neighbours; and when the first block is free then and is the only one or reaches over the first page, that block and one page go and the others move down |
| AllocatorTheorems.RangeIsInOneBlock | memoria/src/memory.c:2257-2326 | the byte-by-byte test accepts exactly the ranges inside the data of one block, so the later test of remaining bytes never refuses |
| AllocatorTheorems.ZeroBytesCrash | memoria/src/memory.c:2408-2416 | a request for no bytes kills the server exactly when it appends a block or cuts one |
| AllocatorTheorems.ZeroBytesDoCrash | memoria/src/memory.c:2408-2416 | with a common pool the second request of a process, for no bytes, kills the server |
| AllocatorTheorems.EveryRunKeeps | memoria/src/memory.c:2328-2810 | in every run of allocations and releases, compaction included, blocks tile the pages and no two free ones are neighbours |
| AllocatorProcess.SomeByteOnPage | memoria/src/memory.c:2596-2612 | a page lies between two pages exactly when some byte on the way is on it |
| AllocatorProcess.Process.FindCovering | memoria/src/memory.c:2086-2104 | the first block whose data holds the position |
| AllocatorProcess.Process.FindData | memoria/src/memory.c:2106-2116 | the first block whose data starts at the position |
| AllocatorProcess.Process.Plan | memoria/src/memory.c:1902-1967 | the loop and its tests give the answer of the planner |
| AllocatorProcess.Process.TakeFree | memoria/src/memory.c:1969-2019 | the list after first fit, the position granted, and the remainder, as the specification of first fit gives them (which block, when it is cut and what is left: `AllocatorTheorems.MemallocIsExact`) |
| AllocatorProcess.Process.TakeAtEnd | memoria/src/memory.c:2021-2053 | the list after appending, and the position granted |
| AllocatorProcess.Process.JoinLeft | memoria/src/memory.c:2744-2771 | the list after the merge to the left, and where the block is now |
| AllocatorProcess.Process.JoinRight | memoria/src/memory.c:2773-2791 | the list after the merge to the right |
| AllocatorProcess.Process.Release | memoria/src/memory.c:2708-2794 | the list and the answer of a release |
| AllocatorProcess.Process.IsOnPage | memoria/src/memory.c:2596-2612 | the loop of the test, with its bound as it is, answers as the arithmetic form does |
| AllocatorProcess.Process.CompactPage | memoria/src/memory.c:2649-2686 | the list and the number of pages after a compaction, as its specification gives them (every block that stays keeps size and flag and moves down: `AllocatorTheorems.CompactionKeeps`) |
| AllocatorProcess.Process.CompactLoop | memoria/src/memory.c:2800-2804 | the loop terminates, with the list compacted as far as it goes and the invariant kept |
| AllocatorProcess.Process.IsRangeValid | memoria/src/memory.c:2316-2326 | accepts a range exactly when each of its bytes is accepted |
| Transfer.OneMoreByte | memoria/src/memory.c:2456-2475 | one more byte lengthens the last piece or starts the next page |
| Transfer.BuildPieces | memoria/src/memory.c:2456-2475 | the byte-by-byte loop with its lookup builds one piece per page, in order |
| Transfer.ShortInBytes | memoria/src/memory.c:2477-2497 | a range touches at most two pages exactly when it is no longer than what is left of the first and one page more |
| Transfer.ScatterIsPatch | memoria/src/memory.c:2477-2497 | copying piece by piece changes exactly the range, to the bytes the buffer positions of the source select |
| Transfer.ShortIsExact | memoria/src/memory.c:2477-2497 | a write that touches at most two pages puts exactly the data there |
| Transfer.WritesExactlyWhenShort | memoria/src/memory.c:2477-2497 | writes of a length and place are right for all data exactly when they touch at most two pages |
| Transfer.LongReadStopsShort | memoria/src/memory.c:2560-2578 | a read of more than two pages never reaches the last byte of the buffer |
| Transfer.ReadsExactlyWhenShort | memoria/src/memory.c:2560-2578 | reads of a length and place are right for every memory and buffer exactly when they touch at most two pages |
| Transfer.HeadersFitTwoPages | memoria/src/memory.c:2161-2211 | headers of nine bytes touch at most two pages wherever they are exactly when pages have at least eight bytes |
| Service.PersistIsLocal | memoria/src/memory.c:2213-2242 | writing a header changes its nine bytes and no other, and its last byte is the free flag |
| Service.PersistStoresNeighbours | memoria/src/memory.c:2213-2242 | on pages of at least eight bytes the stored header holds the addresses of both neighbours in the list, 0 for none, and the flag |
| Service.HeadersAvoidData | memoria/src/memory.c:2161-2242 | no header shares a byte with the data of any block or with another header |
| ServiceTheorems.MemallocKeeps | memoria/src/memory.c:2328-2419 | an allocation keeps every block in use with all its bytes, and stored flags agree with the list afterwards |
| ServiceTheorems.MemallocFirstKeeps | memoria/src/memory.c:2337-2360 | the first allocation of a process is refused exactly when the swap server is gone, and otherwise leaves a sound image |
| ServiceTheorems.MemallocWrites | memoria/src/memory.c:2366-2416 | every byte an allocation writes: the header of the block granted, with its neighbours and flag in the new list, that of the remainder when one was cut off, and blanks in new pages; no other byte changes |
| ServiceTheorems.MemallocFirstWrites | memoria/src/memory.c:2337-2360 | the same for the first allocation of a process |
| ServiceTheorems.MemfreeKeeps | memoria/src/memory.c:2708-2794 | a release, before compaction, keeps every other block in use with all its bytes, and stored flags agree with the list afterwards |
| ServiceTheorems.MemfreeWrites | memoria/src/memory.c:2724-2794 | a release writes the header of the block that has swallowed the one released, with its neighbours in the new list, and no other byte |
| ServiceTheorems.MemwriteKeeps | memoria/src/memory.c:2421-2513 | a write is accepted exactly inside the data of one block and changes that range only: no header, no other block |
| ServiceTheorems.MemreadReturns | memoria/src/memory.c:2515-2594 | a read is accepted exactly inside the data of one block, and a range of at most two pages comes back as it is stored |
| ServiceTheorems.WriteThenRead | memoria/src/memory.c:2421-2594 | what is written is read back, whatever the bytes and the buffer, exactly when the range touches at most two pages |
| ServiceRuns.ServeKeeps | memoria/src/memory.c:2328-2810 | one request of any process spares every block in use of a process that it is not about; of requests of other processes nothing is asked |
| ServiceRuns.ServeStarts | memoria/src/memory.c:2337-2360 | the request with which a process appears leaves it with a sound list and sound headers |
| ServiceRuns.ServeIsExact | memoria/src/memory.c:2328-2594 | a process becomes known with its first allocation unless that was answered with 0, and then has one block of the size asked for; nobody else's list or bytes change; a read changes nothing and succeeds exactly inside one block |
| ServiceRuns.UnknownIsRefused | memoria/src/memory.c:2714-2718 | whatever a process that is not known asks for, but an allocation, is refused and changes nothing |
| ServiceRuns.RunSpares | memoria/src/memory.c:2328-2810 | over a run of requests by any processes a block in use keeps its place and bytes as long as nobody frees it or writes into it, even while, under quotas, other processes are compacted |
| ServiceRuns.WriteIsRemembered | memoria/src/memory.c:2421-2594 | end to end: what a successful write of at most two pages puts into a block a later read returns, whatever has been asked for in between, as long as nobody is compacted while memory is one common pool |
| ServiceRuns.StoredFlagsAgree | memoria/src/memory.c:2213-2242 | in every state reached from the start, without a compaction when memory is one common pool, the flag byte of every stored header of a process that has not been compacted is the flag of its block |
| Spaces.WriteOnPage | memoria/src/memory.c:2491-2493 | writing on a page of a process writes at that address of its space, and in no other space |
| Spaces.ReadOnPage | memoria/src/memory.c:2571-2573 | reading on a page reads at that address of the space |
| Spaces.CreateOnSpace | memoria/src/memory.c:112-120 | a new page adds one page of blanks at the end of the space of its process, and changes no other space |
| MemoryServer.Server.WriteRange | memoria/src/memory.c:2477-2497 | the loop over the pieces changes the space as the specification of the transfer says, and no other space; it completes when all pages of the range are in memory, or will be stored and a slot is free, and, when no page can be lost, only then; after a compaction with a common pool, under LRU, exactly when all are in memory or a candidate and a slot are left |
| MemoryServer.Server.ReadRange | memoria/src/memory.c:2560-2578 | the loop over the pieces fills the buffer as the specification of the transfer says and changes no byte of memory; it completes under the same conditions |
| MemoryServer.Server.AddPages | memoria/src/memory.c:112-120 | the process has that many more blank pages, and nobody else has noticed; it completes when as many places are spare and the quotas fit; under LRU with a common pool exactly when as many places are spare and not every frame has been lost |
| MemoryServer.Server.Persist | memoria/src/memory.c:2213-2242 | the header is written into the space of the process, and nowhere else; completion is decided by the pages of the header as for a write |
| MemoryServer.Server.Grant | memoria/src/memory.c:2366-2416 | all three strategies, and the lookup and header after them, leave the process as the specification says |
| MemoryServer.Server.Memalloc | memoria/src/memory.c:2328-2419 | an allocation completes when no frame has been lost and there is a place to spare beyond the pages it creates; when it completes it answers and leaves every process as the specification says, uses up no more places than pages, and tells when the shadowed lookup has misordered the list |
| MemoryServer.Server.Memfree | memoria/src/memory.c:2708-2810 | a release completes as the pages of the header it writes decide; then it answers and leaves the lists as the specification says, and the bytes too when nothing is compacted; it tells exactly when something was. Under quotas the others do not notice a compaction; with a common pool the compaction of a process with one page loses its frame, after which the others keep their bytes and complete as the frames left decide, and that of a process with more pages ends what the server promises |
| MemoryServer.Server.Memwrite | memoria/src/memory.c:2421-2513 | a write that is not accepted always completes and touches no page; an accepted one completes as the pages of its range decide, and leaves every process as the specification says |
| MemoryServer.Server.Memread | memoria/src/memory.c:2515-2594 | a read completes under the same conditions, returns what the specification says and changes no process |
| Kernel.StepKeeps | kernel/src/kernel.c:1112-1306 | every step of every thread keeps the order of admission, the place of every process and the balance of permissions and tokens |
| Kernel.AdmissionIsSafe | kernel/src/kernel.c:1228-1279 | over every interleaving processes inside and the value of `puedeEntrarAlSistema` never exceed the multiprogramming degree, and they fall short of it exactly by a permission in hand and those of terminated processes |
| Kernel.NobodyIsLost | kernel/src/kernel.c:1228-1279 | processes are admitted in the order of arrival, and each is in exactly one place or gone |
| Kernel.ReadyIsNeverEmpty | kernel/src/kernel.c:1279-1342 | the value of `cantidadCarpinchosEnReady` and the tokens in hand never exceed the length of READY, so the choice is never made from an empty list |
| Kernel.LeaksNeverHeal | kernel/src/kernel.c:1288-1304 | every token thrown away leaves one process more in READY for good |
| Kernel.SemaphoresSettle | kernel/src/kernel.c:1112-1306 | over every interleaving the value of each semaphore is what its posts leave of its waits; in particular every CPU that is freed calls both schedulers |
| Kernel.WakesAreTested | kernel/src/kernel.c:1101-1503 | over every interleaving each scheduler thread runs its test, or its second wait, once for every time it has been woken, whatever the test finds |
| Kernel.SuspensionIsFinal | kernel/src/kernel.c:1441-1468 | at most one process is ever suspended; it stays suspended and its permission is never given back: all others together stay one below the degree |
| Kernel.SuspensionHappens | kernel/src/kernel.c:1441-1468 | a run after which a process is suspended for good |
| Kernel.WaitsAreAnswered | kernel/src/kernel.c:1485-1528 | over every interleaving the waits of a process for IO and the times it was taken out of one by something else are as many as its requests still queued and those served without waking it; so it waits for nothing exactly when more requests were served like that than waits were ended |
| Kernel.WakeUpsAreKept | kernel/src/kernel.c:1579-1604 | when nothing else ends a wait for IO, no wake-up is lost exactly when the device always finds the process it has served |
| Kernel.MissesHaveThreeCauses | kernel/src/kernel.c:1579-1604 | the device misses a process whose waits have been answered so far only when it is not in the list yet, when the search passes over it, or when another entry is removed |
| Kernel.WakeUpsCanBeLost | kernel/src/kernel.c:926-929 | a run in which the device is faster than the CPU: the process is blocked, its request is served, and no wake-up is on its way |
| Kernel.AnotherIsWoken | kernel/src/kernel.c:1579-1604 | a run in which the index found is out of date: one process waits without a request, and another goes on while its request is still queued |
| ShortTerm.EstimateIsTheAverage | kernel/src/kernel.c:1344-1348 | the estimate is the exponential average for all bursts exactly when `alfa` is a whole number, which in [0, 1] means 0 or 1 |
| ShortTerm.Ready.TakeShortest | kernel/src/kernel.c:1309-1342 | every process whose last burst is 0 gets its share of the previous estimate as the new one, and no other entry changes; then the first process of the least estimate is taken, or the first of all when none is below the bound, and those left behind keep their order |
| Wire.WordIsNumber | matelib/src/matelib.c:420-465 | four bytes and a 32-bit integer determine each other |
| Wire.ParseInvertsEncode | matelib/src/matelib.c:420-465 | the format loses nothing: a string of bytes starts with the encoding of at most one request, and is read as that one |
| Wire.EncodedThen | matelib/src/matelib.c:420-465 | an encoding is eleven integers and three strings long, and does not depend on what follows |
| Wire.EncodingsArePrefixFree | matelib/src/matelib.c:420-465 | no encoding is the beginning of another, so on an open connection a request is never complete too early or too late |
| Wire.StreamsAreParsed | matelib/src/matelib.c:420-465 | a stream is requests, one after another, and a tail that starts with none in exactly one way |
| Wire.RelayIsIdentical | kernel/src/kernel.c:992-1040 | what the kernel encodes again, request by request, is what it read, byte for byte |
| Wire.Serialize | matelib/src/matelib.c:420-465 | the buffer filled with the running offset holds exactly the encoding, and its length stays inside what was allocated |
| Connection.Socket.Receive | kernel/src/kernel.c:594-638 | `recv` overwrites as many bytes of new memory as have arrived, and leaves the others as they were |
| Connection.Socket.ReceiveBody | memoria/src/server.c:93-137 | the sequence of receives reads every field from what has arrived and, past the end, from what lay in memory |
| Connection.Socket.ReceiveGuarded | memoria/src/server.c:51-91 | the body is read after the one code accepted; any other code closes the connection |
| Connection.Socket.ReceiveByCpu | kernel/src/kernel.c:842-848 | the body is read whatever the code was, from the closed connection when it was another |
| Connection.AllArrived | kernel/src/kernel.c:594-638 | a request that has arrived is processed as it was sent, whatever follows and whatever lies in memory |
| Connection.ServerGetsTheRequest | memoria/src/server.c:51-137 | when the connection is closed anywhere in a request, the main thread of the kernel and the memory server process what was sent, whatever lies in memory, exactly when all its bytes had arrived and the code was 1 |
| Connection.CpuGetsTheRequest | kernel/src/kernel.c:842-848 | the same for a CPU, which reads on after any code |
| Connection.CutRequestIsTaken | kernel/src/kernel.c:594-638 | every other request that starts with the bytes that did arrive can be the one that is processed |
| Connection.OtherCodeIsTaken | kernel/src/kernel.c:842-848 | after another code a CPU can process any request at all |
| Connection.CompleteRequestsAreServed | memoria/src/server.c:51-76 | the complete requests at the start of a stream are processed in order as they were sent, wherever the connection is closed after them |
| Wire.ValuesOfPacked | kernel/src/utils.c:102-123 | a buffer is read as a list of values exactly when it is the packing of those values |
| Wire.Unpack | kernel/src/utils.c:102-123 | the loop with its running offset returns the values of the buffer, and nothing when a length points outside |
| Wire.PacketsRoundTrip | kernel/src/utils.c:82-123 | after the code, a stream starts with a packet exactly when it starts with the packing of its values, and those are read |
| Connection.Socket.ReceivePacket | kernel/src/utils.c:82-123 | size and buffer are received as any bytes are, and the buffer is read as the values it packs |
| Wire.Package.Add | matelib/src/utils.c:157-165 | the stream grows by the length and the bytes of the value and keeps what it held |
| Wire.Package.Serialize | matelib/src/utils.c:64-77 | code, size and stream, one after another |

## Left out

- Sockets, configuration, logging, dumps, signals, delays, mapped files: a connection is the bytes that arrive
  before it is closed, and the swap file is a list of pages.
- The transfer of a page to and from swap is not byte-exact in the source
  (`memoria/src/client.c:154`, `swamp-v2/src/swamp.c:300`); it is taken as the transfer of one whole page.
- More than one swap file: the number of a slot in the source is its position in the list of all files.
- The question whether the swap server has room for new pages (`swamp-v2/src/swamp.c:162-240`): its answer is
  a parameter of an allocation, any integer.
- The recency order of the TLB and its statistics: two unrelated clocks are mixed, so the entry given up is
  any entry.
- What is left of memory after a request fails in the pager (victim refused by the swap server, page never
  stored): the source goes on with a page lost or a thread that waits forever; here the request fails and the
  run ends, and the conditions are exact.
- The bytes of a process after its own compaction: the source neither moves bytes nor renumbers pages, and a page it
  creates later gets the number of one that is gone. The block lists are proved through compaction, the bytes up to it,
  and a process that has been compacted makes no further request.
- The compaction of a process with more than one page: the source frees the descriptor of the page that follows while
  it is still in the list. With a common pool victims are chosen from that list, so nothing is stated afterwards. Under
  quotas the others only read its presence bit, in a test that never decides (`memoria/src/memory.c:779-785`), which is
  taken to be harmless; their tables are those of a server without the compaction.
- AllocatorTheorems.CompactionKeeps: the page count drops by one at every compaction; the source removes the descriptor at the index of a page number that no compaction renews, and has freed the next one, so after a first compaction that leaves pages its page list is not defined.
- AllocatorTheorems.EveryRunKeeps: idealises the page count in the same way after a first compaction; the block lists are as in the source.
- AllocatorProcess.Process.CompactPage: removes a page by lowering the count, not by the index in the page list.
- MemoryServer.Server.Memalloc: a process whose list the shadowed lookup has misordered, or that has been compacted, makes no further request here, because its list or its pages are no longer what the next request would take them for; and under M-CLOCK completion is stated for allocations that create no page, because a new page may be lost before its header is written.
- MemoryServer.Server.Memfree: the same exclusion of processes that have been compacted or misordered; and after the compaction of a process with more than one page with a common pool it promises nothing about later requests, because the victim lists hold a freed descriptor.
- ServiceRuns.WriteIsRemembered: is stated for runs in which the process of the block is neither compacted nor misordered, others make no request after that has happened to them, nothing kills the server and, with a common pool, nobody is compacted, because the source keeps no byte in place or may find no victim otherwise; what a compaction leaves the others with a common pool is stated for the pager and for each request of `MemoryServer.Server`.
- ServiceRuns.RunSpares: is stated for the same runs.
- ServiceRuns.StoredFlagsAgree: is stated for the same runs.
- Compaction.CompactionIsInvisible: is stated for compactions of processes with one page that make no request afterwards, for the reasons above.
- The compaction of a process without pages: the source runs off the end of a function; here the answer is no.
- The end of a process in the memory server: frames, TLB entries and slots are not given back.
- Machine widths of addresses, counters and time stamps: unbounded integers, except in the byte formats. Floating
  point: estimates are exact numbers.
- User semaphores, HRRN and the choice of victims of the deadlock detector: the detector terminates or revives
  any blocked process, a semaphore blocks and wakes any process.
- Which CPU runs a process: a chosen process is running until it blocks, asks for IO or ends.
- A thread that dereferences an entry another thread has just removed: such a step does not exist here.
- A negative length in a request receives nothing here, and one for which there is no memory is not modelled: the
  source then receives into a null pointer. A length that points outside the buffer of a packet, where the source
  reads on, refuses the packet here.
- Errors of `recv` other than the end of the stream.
