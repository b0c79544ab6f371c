# Lunaix, in Dafny

Lunaix is a kernel written from scratch in C. This project models the components of it
that carry the hardest promises and proves those promises for every input, every run or
every reachable state:

- the block-I/O pipeline and the threads that sleep on it (`Blkio`, `BlkioProgress`,
  `BlkioRace`, `BlkioCalls`);
- the list of virtual memory regions of a process (`Regions`, `VmSpace`, `VmHistory`,
  `AddressSpace`);
- the reader of flattened devicetrees (`Fdt`, `FdtWalk`, `DtLoad`, `DtNodes`);
- the slab allocator (`Cakes`, `CakePile`);
- the bitwise trie, and the page cache built on it (`Btrie`, `PageCache`, `PageCacheRuns`,
  `PageCacheObject`);
- the reader/writer lock (`RwLock`) and the round-robin scheduler (`Scheduler`);
- three self-contained algorithms: the maze generator (`Maze`, `MazeGrid`), CRC-32
  (`Crc32`) and the overwriting ring buffer (`RingBuffer`).

`Arith` holds a few facts about products and remainders. `dafny verify dfyconfig.toml`
checks the whole project.

## How the models are built

Concurrent code is a state machine. A state holds every thread's next line; a step is one
line of one thread, a context switch, or a whole interrupt. Theorems quantify over all
sequences of enabled steps. Sequential code that updates state is a class or a method with
loops, proved equal to a function on values; the theorems are about that function and its
runs. Machine arithmetic is written out where it matters: 64-bit address arithmetic, the
32-bit distance in `mem_unmap`, the 32-bit piece count and the 16-bit free list slots of
the slab allocator, the 64-bit positions of the ring buffer, bit vectors in CRC-32.

## Where a promise does not hold as one would expect

Each of these is stated as an exact condition, with a concrete instance beside it.

- `blkio_commit` tests PENDING and sets it a few lines later. A request is queued at most
  once, along every run, if and only if no thread passes the test while another has passed
  it and not yet set the flag (`BlkioRace.QueuedOnceIff`); two threads are enough for the
  race to happen (`BlkioRace.TwoThreadsRace`). What a caller has to check: a call can end
  with its request queued twice if and only if another thread is at one of those lines for
  the same request (`BlkioRace.CallRacesIff`, `BlkioRace.RuleIsWeakest`). Commits of one
  request may overlap in every other way, and all theorems about the pipeline cover that.
- `mem_unmap` keeps the distance to a region in a 32-bit variable. The range is cleared if
  and only if no region below it has a truncated distance that looks close
  (`Regions.UnmapClearsIff`, `Regions.FourGigabytesBelow`); ranges that end below 4 GiB are
  never affected (`Regions.LowRangesExact`), and the list stays well formed exactly as
  `Regions.UnmapValidIff` says. For mapping and for whole runs the exact conditions are
  `VmSpace.MapValidIff` and `VmSpace.EveryRun`.
- The loop guard of `mem_unmap` uses the original length. Nothing new becomes mapped if and
  only if no later region starts within that length of a region that ends inside the range
  (`Regions.UnmapExact`, `Regions.StretchedDown`).
- `mem_has_overlap` also refuses a range that starts exactly where a region ends
  (`VmSpace.OverlapExact`, `VmSpace.AbuttingRefused`).
- `mem_map` checks only the start of a place it did not search for: a placed request ends in
  the range if and only if it was searched for or its own end is in the range
  (`VmSpace.PlacedInRangeIff`, `VmSpace.FixedPastRange`).
- `mem_unmap` rounds address and length separately: all bytes asked for are in the pages it
  removes if and only if the offset of the address in its page plus the length is at most
  the rounded length (`VmSpace.CallCoversIff`, `VmSpace.TailStays`).
- A fixed request unmaps before its place is checked: a request that fails leaves its range
  as it was if and only if it is not a fixed one, nothing was mapped there or a truncated
  distance hid it (`VmSpace.FailedKeepsIff`, `VmSpace.FailedAfterUnmap`).
- Sibling iteration over a devicetree node with neither properties nor subnodes starts at
  the node's end token and goes on through the siblings behind it
  (`FdtWalk.ChildrenVisited`, `FdtWalk.EmptyNodeWalksOut`).
- `__init_pile` subtracts more pieces than it has when the header does not fit: the layout
  fits if and only if the loss is at most the estimate (`Cakes.LayoutFits`,
  `Cakes.PageSizedPiece`). All runs on a pile are safe if and only if the estimate exceeds
  the loss by two or more (`Cakes.PileSafeIff`): with none or one left the first grab fails
  (`Cakes.FewPiecesPanic`), and with fewer the second piece lies outside the pages
  (`Cakes.WrappedLayout`). Pieces beyond the first 65535 are never handed out, and harm
  nothing (`Cakes.FreshChain`). Every cake keeps one piece back: a new one is made exactly
  if each has all pieces but one in use (`Cakes.GrabGrowsIff`).
- `cake_release` tests for a double free: releasing a piece that nobody holds is noticed if
  and only if it is the one its cake would hand out next or the cake has no piece in use
  (`Cakes.DoubleFreeIff`).
- `btrie_remove` on an inner node forgets every longer key below it (`Btrie.RemoveExact`,
  `Btrie.RemoveAloneIff`, `Btrie.RemoveTakesOthers`); so evicting a page with others below
  it in the trie can lose them (`PageCache.EvictKeepsViewIff`,
  `PageCacheRuns.EvictLosesBelow`). A removal takes nodes out of the trie if and only if the
  key's node has children; a childless one stays, empty (`Btrie.RemoveFreesIff`).
- The ring buffer finds its oldest byte if and only if `ptr - len` does not wrap or the
  capacity divides 2^64 (`RingBuffer.MinusIsBackIff`, `RingBuffer.ThreeGoesWrong`); all
  powers of two do (`RingBuffer.PowersDivide`), and `RingBuffer.MinusLands` says where it
  looks otherwise.
- The halved width in the maze generator is a macro without parentheses, so the start is a
  cell if and only if the drawn column is not the last one (`Maze.StartIsCellIff`,
  `Maze.LastColumnLeaves`).

## Assumptions

- Block I/O: taking the queue lock is one atomic step, `busy` is changed atomically, the
  device handler completes each request asynchronously and once, and no signals, sleeps or
  stall detector interfere. The scheduler may pick any thread its ONWAIT check does not
  defer. Any thread may call commit for any request at any time.
- Regions: addresses are in the lower half of a 64-bit space; memory for new regions is
  always found.
- Devicetree: the block is a byte sequence; reading outside it is a fault. A well-formed
  tree has its properties before its subnodes (section 5.4.2 of the Devicetree
  Specification) and NOPs may follow any token or come before the first one.
- Slab allocator: fresh cake pages are zeroed and disjoint from those in use; clients
  release only pieces they hold.
- Page cache: reading a page delivers a whole page, writing one succeeds, page allocation
  succeeds, one operation runs at a time, and file positions stay below 2^32.
- Reader/writer lock: each atomic operation is one step; a waiting thread may look again at
  any time.
- Scheduler: the ring of threads does not change; who wakes up by timer is a parameter.
- Maze: random numbers are arbitrary.

## Model

| member | source | states |
|---|---|---|
| Blkio.Unlink | lunaix-os/kernel/ds/waitq.c:93-107 | waking a queue detaches exactly the threads on it |
| Blkio.NoOtherWaiter | lunaix-os/kernel/block/blkio.c:92-95 | nobody else waits on the request a thread is committing |
| Blkio.ExecInv | lunaix-os/kernel/block/blkio.c:78-160 | every line of commit and schedule, by any thread at any moment, keeps the pipeline invariant, except that of the second of two threads that both passed the test before either set PENDING |
| Blkio.IrqScheduleInv | lunaix-os/kernel/block/blkio.c:132-160 | scheduling inside the interrupt keeps the invariant and leaves the queue empty, the lock held or another request in flight |
| Blkio.IrqCompleteInv | lunaix-os/kernel/block/blkio.c:162-191 | completing a request after that keeps the invariant |
| Blkio.SwitchInv | lunaix-os/kernel/process/sched.c:128-146 | switching to any thread the ONWAIT check accepts keeps the invariant |
| Blkio.StepInv | lunaix-os/kernel/block/blkio.c:78-191 | so does every step of the protocol |
| Blkio.StepNoRace | lunaix-os/kernel/block/blkio.c:83-90 | unless a thread passes the test beside another that has passed it, at most one has, and the exception of `ExecInv` does not occur |
| Blkio.RunInv | lunaix-os/kernel/block/blkio.c:78-191 | so every run without such a step keeps the invariant |
| Blkio.NoStrandedIo | lunaix-os/kernel/block/blkio.c:78-191 | in every race-free interleaving, overlapping commits of one request included, a non-empty queue has a request in flight or a committer on its way to schedule it; a pending request is in exactly one place of the pipeline and any other in none; `busy` counts those in flight |
| Blkio.NoLostWakeup | lunaix-os/kernel/block/blkio.c:92-175 | in the same interleavings the assertion at completion holds; a waiting commit returns only after its own acceptance has completed, or with the request pending if the double-submission test turned it away; after completion the waiter is never deferred |
| Blkio.PrepareAssertHolds | lunaix-os/kernel/ds/waitq.c:109-119 | a committer about to enqueue itself is on no wait queue |
| BlkioProgress.SumsZero | lunaix-os/kernel/block/blkio.c:78-191 | the progress measure is zero exactly at rest |
| BlkioProgress.StepMeasure | lunaix-os/kernel/block/blkio.c:78-191 | every line, yield and interrupt lowers the measure, a preemption keeps it |
| BlkioProgress.BoundedWork | lunaix-os/kernel/block/blkio.c:78-191 | without new commits every run takes boundedly many such steps |
| BlkioProgress.GuardsAreReal | lunaix-os/kernel/block/blkio.c:78-191 | the guards of the model's steps demand no more than the code does: only the lock can hold a line up |
| BlkioProgress.Progress | lunaix-os/kernel/block/blkio.c:78-191 | unless the pipeline is at rest some run brings it closer |
| BlkioProgress.Drain | lunaix-os/kernel/block/blkio.c:78-191 | from every state of the invariant in which at most one thread has passed the test of each request, all requests can complete and all committers return |
| BlkioProgress.ReachableDrains | lunaix-os/kernel/block/blkio.c:78-191 | the same from every state reached without a race: there is no deadlock |
| BlkioRace.RaceBreaks | lunaix-os/kernel/block/blkio.c:83-104 | after a thread passes the test beside another that has passed it, some continuation has the request in the queue twice |
| BlkioRace.QueuedOnceIff | lunaix-os/kernel/block/blkio.c:83-104 | no continuation queues a request twice if and only if none contains such a step |
| BlkioRace.TwoThreadsRace | lunaix-os/kernel/block/blkio.c:83-104 | it is reachable from every initial state with two threads and a request |
| BlkioRace.SerialIsRaceFree | lunaix-os/kernel/block/blkio.c:83-90 | if nobody calls commit for a request while another thread is at the test or about to set PENDING, no race happens |
| BlkioRace.Complete | lunaix-os/kernel/block/blkio.c:83-191 | a request can complete although every thread at the test stays there |
| BlkioRace.CallRacesIff | lunaix-os/kernel/block/blkio.c:78-104 | a call can end, without further calls, with its request queued twice if and only if another thread is at those lines for that request |
| BlkioRace.RuleIsWeakest | lunaix-os/kernel/block/blkio.c:78-104 | along every run that keeps the rule no request is queued twice, and the next call is safe exactly if it keeps the rule too |
| BlkioCalls.EntersSchedule | lunaix-os/kernel/block/blkio.c:119-129 | in every state a thread goes into scheduling exactly by a stall test that finds nothing on the device |
| BlkioCalls.BacksOff | lunaix-os/kernel/block/blkio.c:134-141 | scheduling backs off without any change exactly if the queue is locked |
| BlkioCalls.SleepsIffLinked | lunaix-os/kernel/ds/waitq.c:35-55 | a committer that has been let go before it tests its wait queue returns at once, any other goes to sleep |
| BlkioCalls.TurnedAway | lunaix-os/kernel/block/blkio.c:83-86 | an undisturbed call for a pending request changes nothing |
| BlkioCalls.CallBehind | lunaix-os/kernel/block/blkio.c:78-130 | an undisturbed call that finds the device busy returns, or sleeps, with its request last in the queue, nothing handed to the device and no other request changed |
| BlkioCalls.CallAhead | lunaix-os/kernel/block/blkio.c:78-160 | an undisturbed call that finds the device idle hands it the head of the queue, which is its own request if the queue was empty |
| BlkioCalls.IrqExact | lunaix-os/kernel/block/blkio.c:132-191 | what an interrupt does to every request and thread: the completed request is cleared, its waiters are let go, and the head of an unlocked queue takes its place |
| BlkioCalls.CallCompletes | lunaix-os/kernel/block/blkio.c:78-191 | a call on an idle pipeline, its interrupt and its return leave nothing behind but one more acceptance and completion |
| Regions.ClassifyOverlap | lunaix-os/kernel/mm/mmap.c:401-445 | in wrapping arithmetic the four cases move start, end and file offset to the places the cut asks for |
| Regions.UnmapOverlapped | lunaix-os/kernel/mm/mmap.c:401-462 | one region is replaced by what is left outside the range, and the rest of the range goes on behind it |
| Regions.TailBacking | lunaix-os/kernel/mm/region.c:33-45 | a split-off tail maps each address to the same file offset |
| Regions.PiecesMeaning | lunaix-os/kernel/mm/mmap.c:401-462 | cutting one region keeps each address outside the range at its file offset and clears the inside |
| Regions.ScanFirst | lunaix-os/kernel/mm/mmap.c:470-476 | the first loop stops at the first region that seems to meet the range |
| Regions.ScanTruncated | lunaix-os/kernel/mm/mmap.c:470-476 | it stops at a region below the range exactly when a truncated distance looks close |
| Regions.LowRangesExact | lunaix-os/kernel/mm/mmap.c:473 | that never happens for ranges ending below 4 GiB |
| Regions.TakeOutValid | lunaix-os/kernel/mm/mmap.c:478-489 | the second loop keeps the list sorted, disjoint and non-empty |
| Regions.TakeOutMeaning | lunaix-os/kernel/mm/mmap.c:478-489 | what the second loop leaves mapped, address by address |
| Regions.UnmapValidIff | lunaix-os/kernel/mm/mmap.c:464-492 | the list stays non-empty, sorted and disjoint if and only if no truncated distance stretches a region over the next one |
| Regions.UnmapMeaning | lunaix-os/kernel/mm/mmap.c:464-492 | address by address: the range is unmapped and each address mapped outside keeps file, offset and attributes; with a truncated distance one region is stretched up to the range and nothing else changes |
| Regions.UnmapExact | lunaix-os/kernel/mm/mmap.c:464-492 | nothing new becomes mapped if and only if no region gets stretched down to the range or, with a truncated distance, over unmapped addresses below it |
| Regions.StretchedDown | lunaix-os/kernel/mm/mmap.c:482 | an instance where one does |
| Regions.TruncatedKeepsRange | lunaix-os/kernel/mm/mmap.c:470-489 | a truncated distance leaves the range as it was |
| Regions.UnmapClearsIff | lunaix-os/kernel/mm/mmap.c:464-492 | the range ends up clear if and only if no distance was truncated or it was clear before |
| Regions.FourGigabytesBelow | lunaix-os/kernel/mm/mmap.c:473 | an instance where it does not |
| Regions.PageBounds | lunaix-os/kernel/mm/mmap.c:467-468 | the two roundings: the page an address is in, and the next page boundary at or above a length |
| VmSpace.OverlapExact | lunaix-os/kernel/mm/mmap.c:18-38 | the overlap test answers yes exactly for overlap or a region that ends at the start |
| VmSpace.AbuttingRefused | lunaix-os/kernel/mm/mmap.c:18-38 | an instance of the latter, refused although it is free |
| VmSpace.NearestMinimal | lunaix-os/kernel/mm/mmap.c:140-162 | the anchor is the region that holds the hint or else the first of those closest to it |
| VmSpace.DistanceExact | lunaix-os/kernel/mm/mmap.c:148-152 | the distance is that to the closest point of the region |
| VmSpace.SearchExact | lunaix-os/kernel/mm/mmap.c:76-138 | a place found overlaps nothing; with all regions in the range the search fails exactly when no place of that size is free in the range |
| VmSpace.PlaceChosen | lunaix-os/kernel/mm/mmap.c:76-138 | with all regions in the range the search takes the lowest free place above the anchor or else the highest below it |
| VmSpace.HintExact | lunaix-os/kernel/mm/mmap.c:199-211 | with all regions in the range, a hint request on a non-empty list fails exactly if no place of its size is free there, and otherwise gets the place so chosen from the region closest to the hint |
| VmSpace.PlacedInRangeIff | lunaix-os/kernel/mm/mmap.c:208-211 | a placed region starts in the range, and ends there if and only if it was searched for or the requested end is in the range |
| VmSpace.FixedPastRange | lunaix-os/kernel/mm/mmap.c:209 | an instance that ends outside |
| VmSpace.InsertValidIff | lunaix-os/kernel/mm/region.c:47-68 | insertion leaves a valid list if and only if there was one and it had room |
| VmSpace.InsertMeaning | lunaix-os/kernel/mm/region.c:47-68 | insertion maps the new region and changes nothing else |
| VmSpace.PlacedFree | lunaix-os/kernel/mm/mmap.c:164-236 | wherever a request is placed there was room, and the new region is well formed |
| VmSpace.UnmapFreeIff | lunaix-os/kernel/mm/mmap.c:188-195 | unmapping for a fixed request makes room if and only if no distance is truncated or there was room before |
| VmSpace.MapValidIff | lunaix-os/kernel/mm/mmap.c:164-236 | mapping keeps the list valid, whichever way it ends, exactly on the legal requests |
| VmSpace.MapMeaning | lunaix-os/kernel/mm/mmap.c:164-236 | a placed request is at its own page unless a place was searched for; each address of its range is anonymous or backed by the file at the offset asked for, with the attributes asked for; everything mapped outside it stays |
| VmSpace.MapOutcome | lunaix-os/kernel/mm/mmap.c:180-211 | how a request ends whose place is not searched for: exactly when it is placed, refused or out of range |
| VmSpace.FailedKeepsIff | lunaix-os/kernel/mm/mmap.c:188-211 | when a failed request leaves its range, and when the whole list, as it was |
| VmSpace.FailedAfterUnmap | lunaix-os/kernel/mm/mmap.c:188-211 | an instance of a failed request that has unmapped its range |
| VmSpace.CallUnmaps | lunaix-os/kernel/mm/mmap.c:464-492 | in terms of the caller's address and length: every page that starts within the length from the address's page on is unmapped, and no other mapping is lost |
| VmSpace.CallCoversIff | lunaix-os/kernel/mm/mmap.c:467-468 | when all bytes asked for are in those pages |
| VmSpace.TailStays | lunaix-os/kernel/mm/mmap.c:467-468 | an instance where they are not |
| VmSpace.StepValidIff | lunaix-os/kernel/mm/mmap.c:164-492 | the same for one call of either kind; every call below 4 GiB is legal |
| VmSpace.RunValidIff | lunaix-os/kernel/mm/mmap.c:164-492 | a run keeps a valid list valid all the way if and only if each call is legal |
| VmSpace.EveryRun | lunaix-os/kernel/mm/mmap.c:164-492 | from the empty list a run keeps regions sorted and disjoint all the way if and only if each call is legal, and then each address is in at most one region |
| VmHistory.StepSays | lunaix-os/kernel/mm/mmap.c:164-492 | one legal call keeps what is mapped where it does not unmap and maps what it says; if it stretches no region, it does nothing else |
| VmHistory.RunHistory | lunaix-os/kernel/mm/mmap.c:164-492 | over every legal run a mapping lasts, with its backing, until an unmap or a fixed request covers it; if no call stretches a region, the history of calls says exactly what is mapped at each address |
| AddressSpace.ProcMm.ScanRegions | lunaix-os/kernel/mm/mmap.c:470-476 | the loop computes the scan function |
| AddressSpace.Turn | lunaix-os/kernel/mm/mmap.c:480-488 | one turn of the second loop against the specification |
| AddressSpace.RemoveFrom | lunaix-os/kernel/mm/mmap.c:478-489 | the second loop computes its specification |
| AddressSpace.ProcMm.RemovePages | lunaix-os/kernel/mm/mmap.c:470-489 | both loops together compute the unmap function on a rounded range |
| AddressSpace.ProcMm.MemUnmap | lunaix-os/kernel/mm/mmap.c:464-492 | the region list becomes the unmap of the page-rounded range; without a truncated distance exactly the pages of the caller's range are gone |
| AddressSpace.ProcMm.MemHasOverlap | lunaix-os/kernel/mm/mmap.c:18-38 | the loop answers whether some region touches the range |
| AddressSpace.ProcMm.FindNearest | lunaix-os/kernel/mm/mmap.c:140-162 | the loop finds a region no other is closer than |
| AddressSpace.ProcMm.FindSlotBackward | lunaix-os/kernel/mm/mmap.c:76-102 | the search above the anchor |
| AddressSpace.ProcMm.FindSlotForward | lunaix-os/kernel/mm/mmap.c:104-126 | the search below the anchor |
| AddressSpace.ProcMm.MemFindSlot | lunaix-os/kernel/mm/mmap.c:128-138 | above first, then below |
| AddressSpace.ProcMm.RegionAdd | lunaix-os/kernel/mm/region.c:47-68 | the scanning loop inserts in order |
| AddressSpace.ProcMm.RegionGet | lunaix-os/kernel/mm/region.c:124-142 | the region found is the only one that holds the address; none found means unmapped |
| AddressSpace.ProcMm.PlaceAt | lunaix-os/kernel/mm/mmap.c:208-236 | the common end of mapping |
| AddressSpace.ProcMm.MemMap | lunaix-os/kernel/mm/mmap.c:164-236 | result and region list are those of the map function |
| Fdt.FdtNextToken | lunaix-os/hal/devtree/dt.c:52-76 | the loop over a token and its NOPs computes the next location and depth change |
| Fdt.FdtNextSibling | lunaix-os/hal/devtree/dt.c:78-90 | the loop computes the location at which the depth is back to zero |
| Fdt.BeginStep | lunaix-os/hal/devtree/dt.c:52-76 | an encoded node start is read back and stepped over, padding and NOPs included |
| Fdt.PropStep | lunaix-os/hal/devtree/dt.c:52-76 | the same for a property |
| Fdt.EndStep | lunaix-os/hal/devtree/dt.c:52-76 | the same for a node end |
| Fdt.TreeParts | lunaix-os/hal/devtree/dt.c:52-76 | an encoded node splits into start, properties, subnodes and end at known locations |
| Fdt.BlockBytes | lunaix-os/includes/hal/devtree.h:14-18 | the bytes of a small block, token by token |
| FdtWalk.NextSiblingOfNode | lunaix-os/hal/devtree/dt.c:78-90 | from a node of any nesting the next sibling is just past its whole subtree |
| FdtWalk.VisitFromEnd | lunaix-os/hal/devtree/dt.c:78-101 | what an iteration visits from any node's end |
| FdtWalk.DescendStays | lunaix-os/hal/devtree/dt.c:92-101 | going into something that is not a node stays where it is |
| FdtWalk.ChildrenVisited | lunaix-os/hal/devtree/dt.c:78-101 | iterating visits the properties and direct subnodes once each, in order; from an empty node it visits the node's end and then the siblings behind it |
| FdtWalk.EmptyNodeWalksOut | lunaix-os/hal/devtree/dt.c:92-101 | an instance of the latter |
| FdtWalk.FdtFindProp | lunaix-os/hal/devtree/dt.c:103-132 | the loop computes the search function |
| FdtWalk.FindPropExact | lunaix-os/hal/devtree/dt.c:103-132 | on any node the search returns its first direct property of the name, or not found |
| DtLoad.DtLoadBlob | lunaix-os/hal/devtree/dt.c:568-642 | the loop with its stack computes the load function |
| DtLoad.FillProp | lunaix-os/hal/devtree/dt.c:429-449 | an encoded property is added to the node, cell counts are taken from the cell properties |
| DtLoad.FillFaults | lunaix-os/hal/devtree/dt.c:311-321 | a cell count outside the block is a fault |
| DtLoad.LoadBegin | lunaix-os/hal/devtree/dt.c:599-615 | a node start opens a node with the right parent and inherited cell counts |
| DtLoad.LoadProps | lunaix-os/hal/devtree/dt.c:622-628 | all properties land on their enclosing node, in order |
| DtLoad.LoadEnd | lunaix-os/hal/devtree/dt.c:617-620 | a node end closes the node |
| DtLoad.LoadTree | lunaix-os/hal/devtree/dt.c:586-632 | a whole subtree is appended in preorder and the stack is restored |
| DtLoad.TreeTooDeep | lunaix-os/hal/devtree/dt.c:590-594 | a subtree that would exceed 15 levels is reported as too deep |
| DtLoad.SecondRootFaults | lunaix-os/hal/devtree/dt.c:599-603 | a second root fails the assertion that its slot is empty |
| DtLoad.LoadRebuilds | lunaix-os/hal/devtree/dt.c:568-642 | the flattened form of any single-rooted tree with NOPs anywhere is rebuilt exactly if it has at most 15 levels, and reported too deep otherwise; no assertion fails |
| DtNodes.OneCount | lunaix-os/hal/devtree/dt.c:311-321 | a property sets the cell count it is called after and no other |
| DtNodes.PropsSay | lunaix-os/hal/devtree/dt.c:429-449 | after all properties of a node each cell count is the low byte of the first word of the last property of that name, or the inherited one; the properties are kept in order |
| DtNodes.TreeNodes | lunaix-os/hal/devtree/dt.c:586-632 | the nodes of a subtree, one by one: name, parent, properties, and cell counts over those of the parent |
| DtNodes.LoadedNodes | lunaix-os/hal/devtree/dt.c:568-642 | the same for everything loaded from the flattened form of a tree of at most 15 levels, with 0 as the counts above the root |
| Cakes.LayoutFits | lunaix-os/kernel/mm/cake.c:194-218 | the computed layout fits in the pages if and only if header and padding cost no more pieces than estimated |
| Cakes.UsablePile | lunaix-os/kernel/mm/cake.c:194-218 | which arguments give a layout that fits with at least two pieces |
| Cakes.PageSizedPiece | lunaix-os/kernel/mm/cake.c:216-217 | an instance where the count wraps around |
| Cakes.WrappedLayout | lunaix-os/kernel/mm/cake.c:216-217 | whenever the count wraps around the second piece is outside the pages |
| Cakes.FewPiecesPanic | lunaix-os/kernel/mm/cake.c:315-320 | with no piece or one per cake the first grab reads outside the free list |
| Cakes.FreshChain | lunaix-os/kernel/mm/cake.c:145-151 | a new free list is one chain through all pieces, or the first 65535 |
| Cakes.PopGood | lunaix-os/kernel/mm/cake.c:306-311 | taking the chain head hands out a piece nobody holds and keeps chain and held pieces a partition |
| Cakes.PopHome | lunaix-os/kernel/mm/cake.c:315-320 | the end mark tells exactly whether one piece will be left |
| Cakes.PushGood | lunaix-os/kernel/mm/cake.c:361-371 | giving a held piece back passes the double-free test and keeps the partition |
| Cakes.RehomeGood | lunaix-os/kernel/mm/cake.c:313-320 | moving a changed cake to the list its chain calls for keeps the pile invariant |
| Cakes.NewCakeGood | lunaix-os/kernel/mm/cake.c:130-173 | a new cake on fresh pages keeps the invariant |
| Cakes.GrabGood | lunaix-os/kernel/mm/cake.c:288-330 | a grab never panics and hands out a piece nobody holds |
| Cakes.GrabGrowsIff | lunaix-os/kernel/mm/cake.c:288-300 | a grab makes a new cake exactly if every cake has all pieces but one in use, and takes from a cake in use before it touches an unused one |
| Cakes.FindIn | lunaix-os/kernel/mm/cake.c:342-357 | the search returns a cake of the list that covers the address, or none does |
| Cakes.PieceInside | lunaix-os/kernel/mm/cake.c:322-323 | pieces lie in the pages, behind header and free list |
| Cakes.PiecesApart | lunaix-os/kernel/mm/cake.c:322-323 | different pieces do not overlap |
| Cakes.PieceAligned | lunaix-os/kernel/mm/cake.c:186-218 | every piece of a cake on aligned pages is aligned and holds at least the bytes asked for |
| Cakes.OnlyOwner | lunaix-os/kernel/mm/cake.c:345-355 | the address of a piece is covered by its own cake only |
| Cakes.OwnerIs | lunaix-os/kernel/mm/cake.c:340-358 | which cake the search finds for any address of a piece |
| Cakes.OwnerFound | lunaix-os/kernel/mm/cake.c:340-361 | release always finds the owning cake |
| Cakes.ReleaseGood | lunaix-os/kernel/mm/cake.c:332-383 | releasing a held piece succeeds and takes back exactly that piece |
| Cakes.DoubleFreeIff | lunaix-os/kernel/mm/cake.c:342-372 | when releasing a piece that nobody holds is noticed, and that the count is off otherwise |
| Cakes.InsidePanics | lunaix-os/kernel/mm/cake.c:362 | an address inside a piece fails the assertion |
| Cakes.ReclaimGood | lunaix-os/kernel/mm/cake.c:391-400 | reclaiming destroys only cakes without pieces out |
| Cakes.UsedCounts | lunaix-os/kernel/mm/cake.c:310-311 | the used count of a cake is the number of its pieces held |
| Cakes.StepSound | lunaix-os/kernel/mm/cake.c:288-400 | every legal call succeeds and keeps the invariant |
| Cakes.SlabSafety | lunaix-os/kernel/mm/cake.c:288-383 | over every run chains are acyclic and partition the pieces with those held, counts agree, held pieces overlap neither each other nor a header and lie in their pages, and every legal call succeeds |
| Cakes.PileSafeIff | lunaix-os/kernel/mm/cake.c:186-383 | every run on a pile is safe if and only if the estimate exceeds the loss by two or more |
| Cakes.FirstGrabs | lunaix-os/kernel/mm/cake.c:288-330 | two grabs on an empty pile of four or more pieces hand out the first two pieces of a cake |
| CakePile.Pile.constructor | lunaix-os/kernel/mm/cake.c:175-226 | the fields are the computed geometry and an empty pile |
| CakePile.Pile.CreateCake | lunaix-os/kernel/mm/cake.c:130-154 | the loop builds the fresh free list |
| CakePile.Pile.Move | lunaix-os/kernel/mm/cake.c:313-320 | the cake leaves its list and ends up last on the named one |
| CakePile.Pile.TakeFrom | lunaix-os/kernel/mm/cake.c:303-320 | taking the chain head of a cake computes the transition on the free list and the three lists |
| CakePile.Pile.Grab | lunaix-os/kernel/mm/cake.c:288-330 | piece and new state are those of the grab transition, and the object stays valid |
| CakePile.Pile.Scan | lunaix-os/kernel/mm/cake.c:343-356 | the list loop computes the search |
| CakePile.Pile.Release | lunaix-os/kernel/mm/cake.c:332-383 | outcome and new state are those of the release transition, and the object stays valid |
| CakePile.Pile.ReclaimFreed | lunaix-os/kernel/mm/cake.c:391-400 | the loop removes every cake of the free list |
| Btrie.DigitsRoundTrip | lunaix-os/kernel/ds/btrie.c:114-116 | the digits read back as the key and have no leading zero |
| Btrie.DigitsInjective | lunaix-os/kernel/ds/btrie.c:114-116 | paths of different keys never collide |
| Btrie.DigitAt | lunaix-os/kernel/ds/btrie.c:119-136 | the digit masked out at each level is the next digit of the path |
| Btrie.GrowData | lunaix-os/kernel/ds/btrie.c:127-129 | creating nodes on the way changes no stored value |
| Btrie.GrowWf | lunaix-os/kernel/ds/btrie.c:90-105 | nor the exactness of child counts |
| Btrie.PutExact | lunaix-os/kernel/ds/btrie.c:278-285 | storing at a path changes that path only |
| Btrie.SetExact | lunaix-os/kernel/ds/btrie.c:278-285 | a set changes the answer for its own key only |
| Btrie.UnlinkWf | lunaix-os/kernel/ds/btrie.c:296-298 | taking a subtree out keeps child counts exact |
| Btrie.PruneExact | lunaix-os/kernel/ds/btrie.c:287-303 | pruning upwards loses nothing outside the subtree |
| Btrie.PruneKeys | lunaix-os/kernel/ds/btrie.c:287-303 | exactly which nodes an upward pruning removes |
| Btrie.CutExact | lunaix-os/kernel/ds/btrie.c:321-340 | removal at a path loses exactly the paths through it |
| Btrie.ExtendsIsPrefix | lunaix-os/kernel/ds/btrie.c:107-139 | a path goes through a key's node exactly if shifting the longer key right gives that key |
| Btrie.RemoveExact | lunaix-os/kernel/ds/btrie.c:321-340 | removing a key loses exactly the keys that extend it; only itself if the node is childless |
| Btrie.RemoveAloneIff | lunaix-os/kernel/ds/btrie.c:321-340 | when removal affects no other key |
| Btrie.RemoveFreesIff | lunaix-os/kernel/ds/btrie.c:321-340 | when a removal takes any node out of the trie |
| Btrie.RemoveTakesOthers | lunaix-os/kernel/ds/btrie.c:335-337 | an instance where it does |
| Btrie.RunRefines | lunaix-os/kernel/ds/btrie.c:265-340 | after any sequence of sets and removes each key holds what the history says |
| Btrie.Trie.Create | lunaix-os/kernel/ds/btrie.c:90-105 | one missing node is hung under its parent and counted |
| Btrie.Trie.Traverse | lunaix-os/kernel/ds/btrie.c:107-139 | the walk finds the node of the key, creating the way when inserting and nothing otherwise |
| Btrie.Trie.BtrieGet | lunaix-os/kernel/ds/btrie.c:265-276 | returns what the key holds |
| Btrie.Trie.BtrieSet | lunaix-os/kernel/ds/btrie.c:278-285 | the trie becomes the set of the key |
| Btrie.Trie.RemoveRecursive | lunaix-os/kernel/ds/btrie.c:287-303 | unlinks the node and prunes useless ancestors |
| Btrie.Trie.BtrieRemove | lunaix-os/kernel/ds/btrie.c:321-340 | returns what the key held and removes it |
| PageCache.WriteStepExact | lunaix-os/kernel/fs/pcache.c:163-195 | writing into one page patches what readers of that page see and no other page |
| PageCache.ReadStepExact | lunaix-os/kernel/fs/pcache.c:212-239 | caching a page changes nobody's view |
| PageCache.CommitExact | lunaix-os/kernel/fs/pcache.c:250-268 | a commit makes the page clean and equal to its backing page without changing any view |
| PageCache.EvictView | lunaix-os/kernel/bcache.c:151-174 | what readers see after any eviction |
| PageCache.EvictKeepsViewIff | lunaix-os/kernel/bcache.c:151-174 | eviction keeps the view if and only if no page below in the trie differs from its backing page |
| PageCache.EvictAlone | lunaix-os/kernel/bcache.c:151-174 | evicting an unreferenced page with no cached page below it in the trie takes it out and keeps view and invariant |
| PageCache.EvictLeaf | lunaix-os/kernel/bcache.c:21-46 | in particular a page whose trie node has no children |
| PageCache.WriteExact | lunaix-os/kernel/fs/pcache.c:151-198 | a write changes the view exactly on its range |
| PageCache.WriteCaches | lunaix-os/kernel/fs/pcache.c:151-198 | a write caches the pages of its range and makes them dirty; all others stay as they are |
| PageCache.ReadExact | lunaix-os/kernel/fs/pcache.c:200-242 | a read delivers the view and does not change it |
| PageCache.ReadCaches | lunaix-os/kernel/fs/pcache.c:200-242 | a read caches exactly the pages of its range and leaves cached ones as they are |
| PageCacheRuns.CommitAllSyncs | lunaix-os/kernel/fs/pcache.c:270-283 | after committing all, nothing is dirty and the file is what readers see |
| PageCacheRuns.RefsExact | lunaix-os/kernel/bcache.c:105-139 | taking and giving references changes no view |
| PageCacheRuns.RefCounts | lunaix-os/kernel/bcache.c:105-174 | a reference counts one, giving it back undoes it, and a page with one is not evicted |
| PageCacheRuns.StepExact | lunaix-os/kernel/fs/pcache.c:110-268 | every operation keeps the invariant, and only writes change the view |
| PageCacheRuns.EveryRunAgrees | lunaix-os/kernel/fs/pcache.c:110-268 | after every run each byte reads as the last write to it, or as the file held it, or zero; the dirty count and list name exactly the dirty pages |
| PageCacheRuns.EvictLosesBelow | lunaix-os/kernel/bcache.c:168-170 | an instance where an eviction loses another page's data |
| PageCacheObject.FileCache.GetPage | lunaix-os/kernel/fs/pcache.c:122-143 | a hit takes a reference, a miss gives an empty page |
| PageCacheObject.FileCache.BcachePutAndRef | lunaix-os/kernel/bcache.c:71-103 | succeeds exactly if nobody uses the tag's page; the page is there with one reference, no other page changes, and a dirty page it replaces is in the file |
| PageCacheObject.FileCache.BcacheReturn | lunaix-os/kernel/bcache.c:129-139 | the assertion holds exactly if there is a reference; one less is left, no other page changes and readers see the same |
| PageCacheObject.FileCache.Finish | lunaix-os/kernel/bcache.c:71-139 | a read or write ends with the page as changed and no reference of its own left |
| PageCacheObject.FileCache.WriteOne | lunaix-os/kernel/fs/pcache.c:163-195 | one turn of the write loop |
| PageCacheObject.FileCache.PcacheWrite | lunaix-os/kernel/fs/pcache.c:151-198 | the loop computes the write of the whole range and its length |
| PageCacheObject.FileCache.ReadOne | lunaix-os/kernel/fs/pcache.c:212-239 | one turn of the read loop |
| PageCacheObject.FileCache.PcacheRead | lunaix-os/kernel/fs/pcache.c:200-242 | the loop computes the read of the whole range |
| PageCacheObject.FileCache.PcacheCommit | lunaix-os/kernel/fs/pcache.c:250-268 | the commit of one page |
| PageCacheObject.FileCache.PcacheCommitAll | lunaix-os/kernel/fs/pcache.c:270-283 | the loop commits every dirty page |
| PageCacheObject.FileCache.BcacheEvict | lunaix-os/kernel/bcache.c:151-174 | a referenced page stays; another is committed, then removed |
| RwLock.ExecInv | lunaix-os/kernel/ds/rwlock.c:13-58 | every atomic operation of any thread keeps the counts of flag holders and readers exact |
| RwLock.RunInv | lunaix-os/kernel/ds/rwlock.c:13-58 | so does every interleaving |
| RwLock.MutualExclusion | lunaix-os/kernel/ds/rwlock.c:13-58 | a writer past its drain loop excludes readers and other writers; the flag is set exactly while one thread holds it; `readers` counts the threads between add and subtract; the assertion never fails |
| RwLock.ReaderEnters | lunaix-os/kernel/ds/rwlock.c:13-22 | a reader gets in whenever the flag is clear, whoever else reads, and leaves the flag clear |
| RwLock.ReadersShare | lunaix-os/kernel/ds/rwlock.c:13-22 | two readers can be in at the same time |
| RwLock.ReaderLeaves | lunaix-os/kernel/ds/rwlock.c:24-33 | a reader that leaves takes back its count |
| RwLock.WriterEnters | lunaix-os/kernel/ds/rwlock.c:35-58 | a writer gets into a free lock, and leaves it as it found it |
| RwLock.KeptOut | lunaix-os/kernel/ds/rwlock.c:13-58 | who waits: everybody while the flag is set, a writer while there are readers; and when the assertion would fail |
| Scheduler.ScanExact | lunaix-os/kernel/process/sched.c:264-280 | the scan picks the nearest thread that may run, and fails only if none may |
| Scheduler.ScanStates | lunaix-os/kernel/process/sched.c:115-172 | threads passed over are left as the checks changed them, all others untouched |
| Scheduler.ChecksInOrder | lunaix-os/kernel/process/sched.c:264-280 | the scan checks the threads behind the running one one by one, up to the one it picks or all |
| Scheduler.ScheduleExact | lunaix-os/kernel/process/sched.c:246-288 | a decision checks at most N threads and none twice, picks the nearest that may run, never a terminated one, and panics exactly if no thread may run |
| Scheduler.CheckTable | lunaix-os/kernel/process/sched.c:115-212 | which threads may run, status by status, and how the checks leave the others and those that may |
| Scheduler.PreludeExact | lunaix-os/kernel/process/sched.c:214-260 | what happens to each thread and process before the scan |
| Scheduler.DecisionTable | lunaix-os/kernel/process/sched.c:246-288 | the whole outcome of a decision in terms of that table: who is picked, and the state every thread and process is left in |
| Scheduler.TurnNears | lunaix-os/kernel/process/sched.c:246-288 | a decision picks an eligible thread or brings its turn nearer and leaves it eligible |
| Scheduler.BoundedWaiting | lunaix-os/kernel/process/sched.c:246-288 | a thread that stays eligible, ready or let go by its wait queue, is picked within N - 1 decisions whatever happens to the others |
| Scheduler.Sched.CanSchedule | lunaix-os/kernel/process/sched.c:175-212 | verdict and changed state are those of the check function, and the verdict is that of the table |
| Scheduler.Sched.CheckSleepers | lunaix-os/kernel/process/sched.c:214-244 | due sleepers become ready, due alarms pending, terminated threads stay |
| Scheduler.Sched.Begin | lunaix-os/kernel/process/sched.c:254-260 | the running thread goes back to ready before the scan |
| Scheduler.Sched.PickNext | lunaix-os/kernel/process/sched.c:246-288 | the loop computes the decision, checks the threads the specification lists and dispatches the thread |
| Maze.StartIsCellIff | lunaix-os/usr/maze.c:178-210 | when the drawn start is a cell |
| Maze.LastColumnLeaves | lunaix-os/usr/maze.c:178-210 | an instance where it is outside the grid |
| Maze.StartNear | lunaix-os/usr/maze.c:178-210 | which node a draw gives |
| Maze.RandReaches | lunaix-os/usr/maze.c:43-51 | every position of the list can be drawn |
| Maze.InsertExact | lunaix-os/usr/maze.c:94-109 | an insertion adds the entry at the drawn position; only a full list turns it away |
| Maze.OfferAllShape | lunaix-os/usr/maze.c:215-249 | the list gains only unopened neighbouring cells, and all of them unless it is full |
| Maze.PickedIsRoad | lunaix-os/usr/maze.c:251-287 | next to a listed cell a road is found |
| Maze.WallNear | lunaix-os/usr/maze.c:290-300 | the wall broken lies between the two cells and is no cell |
| Maze.OpenKeeps | lunaix-os/usr/maze.c:353-360 | opening a listed cell keeps all roads connected to the start |
| Maze.TurnInv | lunaix-os/usr/maze.c:353-362 | every turn keeps the invariant, for every random draw |
| Maze.TurnProgress | lunaix-os/usr/maze.c:353-362 | a turn opens a new cell or uses up an entry that was a road already |
| Maze.TurnRoom | lunaix-os/usr/maze.c:353-362 | a turn drops nothing as long as the list is three short of full |
| Maze.MazeFinished | lunaix-os/usr/maze.c:353-362 | the list runs dry, all roads are connected, and every cell is a road unless an insertion was dropped |
| Maze.GenerateMaze | lunaix-os/usr/maze.c:333-362 | the same for the whole generation from any start cell |
| MazeGrid.Generator.Open | lunaix-os/usr/maze.c:356-358 | one grid position becomes a road |
| MazeGrid.ShiftUp | lunaix-os/usr/maze.c:102-105 | the shifting loop makes room at a position |
| MazeGrid.Generator.InsertRoad | lunaix-os/usr/maze.c:94-109 | random insertion into the array list, or a drop when full |
| MazeGrid.Generator.PopRoad | lunaix-os/usr/maze.c:121-132 | takes the last entry |
| MazeGrid.Generator.PickNearRoadToList | lunaix-os/usr/maze.c:215-249 | offers the four neighbours in order |
| MazeGrid.Generator.PickNearRoad | lunaix-os/usr/maze.c:251-287 | the first neighbouring road in order |
| MazeGrid.Generator.BreakWall | lunaix-os/usr/maze.c:290-300 | opens the position between two cells |
| MazeGrid.Generator.OpenNext | lunaix-os/usr/maze.c:355-359 | one turn before the neighbours are offered |
| MazeGrid.Generator.Generate | lunaix-os/usr/maze.c:333-362 | on the arrays themselves: it ends, all roads are connected to the start, and every cell is a road unless an insertion was dropped |
| Crc32.DivideLinear | lunaix-os/libs/crc.c:64 | one bit step is linear over exclusive or |
| Crc32.TableCorrect | lunaix-os/libs/crc.c:5-49 | all 256 table entries are the remainders of their index |
| Crc32.LookupIsDivision | lunaix-os/libs/crc.c:64 | one look-up does the work of eight bit steps |
| Crc32.FeedBits | lunaix-os/libs/crc.c:63-66 | feeding bits one by one is adding them all and then dividing |
| Crc32.Crc32b | lunaix-os/libs/crc.c:58-69 | the table-driven loop computes the bit-serial reflected CRC-32 of every byte sequence |
| Crc32.CheckValue | lunaix-os/libs/crc.c:58-69 | the checksum of the digits one to nine is the published check value of CRC-32 |
| RingBuffer.MinusIsBackIff | lunaix-os/kernel/ds/rbuffer.c:70 | when the wrapping subtraction lands on the right place |
| RingBuffer.MinusLands | lunaix-os/kernel/ds/rbuffer.c:70 | where the wrapping subtraction lands, for every capacity |
| RingBuffer.ThreeGoesWrong | lunaix-os/kernel/ds/rbuffer.c:96 | an instance where it does not |
| RingBuffer.PowersDivide | lunaix-os/kernel/ds/rbuffer.c:70 | powers of two are safe |
| RingBuffer.PushAllIsLatest | lunaix-os/kernel/ds/rbuffer.c:38-61 | dropping the oldest on each put keeps the latest bytes |
| RingBuffer.PopAllIsSplit | lunaix-os/kernel/ds/rbuffer.c:63-87 | repeated single gets take a prefix |
| RingBuffer.WriteAppends | lunaix-os/kernel/ds/rbuffer.c:44-58 | a block written around the end appends to the sequence |
| RingBuffer.WritePushes | lunaix-os/kernel/ds/rbuffer.c:44-58 | a block written around the end is the same as single puts of its bytes |
| RingBuffer.SliceIsOldest | lunaix-os/kernel/ds/rbuffer.c:69-80 | a block read around the end is the oldest part of the sequence |
| RingBuffer.Ring.Put | lunaix-os/kernel/ds/rbuffer.c:28-36 | appends, dropping the oldest when full, and says whether room is left |
| RingBuffer.Ring.CopyIn | lunaix-os/kernel/ds/rbuffer.c:49-55 | the one or two copies write the block around the end |
| RingBuffer.Ring.CopyOut | lunaix-os/kernel/ds/rbuffer.c:74-80 | the one or two copies read the block around the end |
| RingBuffer.Ring.Puts | lunaix-os/kernel/ds/rbuffer.c:38-61 | equals single puts of the first bytes that fit the capacity |
| RingBuffer.Ring.Get | lunaix-os/kernel/ds/rbuffer.c:89-102 | for every capacity, which byte is read and that the oldest one is dropped; where the subtraction is exact, it is the oldest byte |
| RingBuffer.Ring.Gets | lunaix-os/kernel/ds/rbuffer.c:63-87 | for every capacity, which bytes are read; where the subtraction is exact, those of repeated single gets; the buffer stays as it was when not consuming |
| RingBuffer.Ring.Erase | lunaix-os/kernel/ds/rbuffer.c:16-26 | for every capacity, the position after; where the subtraction is exact, the newest byte is taken back |

## Left out

- Blkio.NoLostWakeup: completion callbacks, error codes and freeing on completion are not part of the model.
- Blkio.ExecInv: the test-then-add of the mutex is one atomic step, so mutual exclusion of the mutex itself is assumed.
- Regions.ClassifyOverlap: flushing the pages of the cut range is page-table work and not part of the model.
- VmSpace.MapMeaning: stated for the requests that leave the list valid, which `MapValidIff` characterises; in an overlapping list an address has no single region.
- DtLoad.FillProp: phandle, status, compatible, reg and interrupt properties are kept by name and value like any other; the fields the parser fills from them are not.
- DtLoad.LoadRebuilds: of the property parser only names, values and the three cell counts are kept; handles, interrupts and references resolved after loading are not.
- CakePile.Pile.Grab: the piece constructor and the mark written into released pieces are not part of the model.
- Cakes.SlabSafety: failure of the page allocator is not modelled, since the source dereferences the missing cake.
- Cakes.PileSafeIff: header plus alignment are taken to be below 2 GiB and the pages of a cake below 4 GiB.
- Btrie.Trie.Traverse: keys are those whose leading mask fits a signed 32-bit integer, as the source computes it; counting leading zeros is the function `TopDigit`.
- Btrie.Trie.RemoveRecursive: nodes below an unlinked inner node simply disappear; that their memory is not freed is not captured.
- PageCacheRuns.EveryRunAgrees: evictions are of pages with no cached page below them in the trie; what other evictions lose is `EvictView`, but pages orphaned that way are not followed further.
- PageCacheRuns.StepExact: the same restriction; `EvictKeepsViewIff` is the exact condition for one eviction.
- PageCacheObject.FileCache.BcachePutAndRef: the list of objects, the LRU list and the counter `n_pages`, which is only ever decremented, are not part of the model; any page may be the victim.
- RwLock.MutualExclusion: liveness of the lock is not claimed.
- Scheduler.BoundedWaiting: the ring does not change; adding and removing threads is not part of the model.
- Maze.MazeFinished: that the list stays below its capacity is not claimed; a dropped insertion is a field of the state.
- Hardware drivers, architecture code, page tables and fault handling.
- `mem_adjust_inplace`, file lengths and file references of regions, `mem_msync`.
- `btrie_map` and the search for free slots, `btrie_release`.
- Slab piles with external free lists, `valloc`, the physical page allocator.
- Flushing, the LRU walk, short page reads and the path without a page.
- Mutexes and semaphores, signal delivery, sleep queues beyond waking up.
- VFS path walking, mounting, devfs and taskfs, exec, gdb stub, formatted printing.
- The maze player and solver, and the assembly variant of CRC-32.
