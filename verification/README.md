# A verified model of the kernel's memory, map, paging and scheduling cores

This project models the stateful cores of a 32-bit kernel in Dafny and proves what they keep, over single calls
and over whole runs.

| part | files | source |
|---|---|---|
| buddy frame allocator | Powers, Rounding, Tiling, Links, BuddyZone, BuddyMerge, BuddyCalls, BuddyCarve, BuddyRuns, BuddyTail, Layout, FrameZone | kernel/kernel/pmm.c, kernel/kernel/math.c |
| slices of pages (`kmalloc`, `kfree`) | SlicePage, SliceManager, SliceHeap, SliceCalls, SliceChoice, SliceRuns, SliceTrouble, SliceMemory | kernel/kernel/kmm.c |
| slices over frames | PageAccounts, PageSentinel, KernelMemory, KernelRuns | kernel/kernel/kmm.c, kernel/kernel/pmm.c |
| hash map | Primes, Squares, HashTable, HashRuns, HashLoad, HashMap | kernel/kernel/klib/map.c |
| page tables | PageTable, PageWords, AddressSpace | kernel/kernel/vmm.c |
| scheduler and sleeping mutex | Rings, Scheduling, RunQueue, KernelTasks, Preemption | kernel/kernel/schedule.c, kernel/include/kernel/sync.h, kernel/include/klib/list.h, kernel/kernel/task.c |

## How the model is built

`Basics` holds the few declarations the others share. Each core has a value model, whose steps follow the source line by line (same branches, constants and edge cases),
and a class over arrays, links and fields that the source's own loops and assignments update in place. Every method
of a class is proved to turn its state into what the value model's step says; the theorems about single calls and
runs are proved of the value model. The classes are `FrameZone.NormalMem`, `SliceMemory.ManagerPage`,
`HashMap.Map`, `AddressSpace.Paging`, `Rings.Node` and `KernelTasks.Kernel`.

`dafny verify dfyconfig.toml` checks everything.

## Where the code and its evident intent part ways

The code is modelled as it is. Where it misses its intent, the condition under which it meets it is proved exact,
and a concrete input, or every input that misses the condition, shows that it is needed.

- Buddy allocator, freeing. Popping a block leaves the next list head with a stale `prev_frame`
  (kernel/kernel/pmm.c:186), splitting does not set the right half's (kernel/kernel/pmm.c:190-195), and the buddy's
  record is read without a bound (kernel/kernel/pmm.c:236-238). `BuddyCalls.FreeCorrect` proves that a free call
  leaves the zone in order if and only if `FreeSafe` held before it: the block is not free already, and every buddy
  the merge loop takes lies in the table and, when it heads its list, has a clean back link.
  `BuddyRuns.StaleHeadWitness` reaches a state in which freeing a block that is handed out breaks the lists. The
  field `fix` switches the two missing stores on; then every run without a double free is safe, if the table is a
  multiple of 1024 frames (`BuddyRuns.WholeRunSafe`) or the memory behind it does not look like a free block
  (`BuddyRuns.FixedRunSafe`).
- Buddy allocator, carving. The unsigned subtraction at kernel/kernel/pmm.c:131 wraps for fewer than 1024 frames;
  `BuddyCarve.CarveExact` proves that the zone starts in order if and only if there are at least 1024.
- Buddy allocator, sentinel. Lines 141 and 192 of kernel/kernel/pmm.c store into the record behind the table, and
  the frames begin right there. `Layout.SentinelClear` says exactly when that store stays clear of frame 0,
  `PageSentinel.StoresExact` that exactly the allocations that split make it, and `PageSentinel.SparesExact` when it
  hits a frame in use. `KernelRuns.BootOversteps` is a region of 1024 frames in which `init_kmm` overwrites bytes 10
  to 13 of its own first manager.
- Slices. For chained slices `kfree` stores the link in the slice's first byte (kernel/kernel/kmm.c:250), while
  allocation reads it from the header before it (kernel/kernel/kmm.c:186). `SliceCalls.KfreeCorrect` proves that the
  heap stays in order if and only if `FreeSafe` held: a bitmap page, a page that was full, or the last slice of its
  page. `SliceTrouble.ChainTrouble` reaches, two calls after `init_kmm`, a slice whose release breaks the heap, and
  `SliceTrouble.ListTrouble` goes on until one allocator heads two lists. The field `fix` stores the link in the
  header; then every run of proper requests is in order (`SliceRuns.FixedRun`).
- Kernel memory. With its last slice a page goes back to the frame allocator (kernel/kernel/kmm.c:268), and that
  call needs the frame allocator's guard like any other; and the store behind the table must not hit a frame in use.
  `KernelMemory.StepExact` proves, of slices and frames together, that an event leaves both in order and overwrites
  nobody's frame if and only if it met these guards. `KernelRuns.RunKeeps` takes it over runs in which whatever lies
  behind the table changes between the events as its owners please; with both repairs, a multiple of 1024 frames and
  a table that ends clear of frame 0 every run of proper events is guarded (`KernelRuns.RepairedRun`).
- Map. `map_insert` of a key that is present leaves a table that is no dictionary's (`HashTable.InsertCorrect`,
  exact). The load limits count live keys only, so tombstones can fill the table: `HashRuns.TombstoneTrap` reaches a
  table with one key in which looking for another never ends. When the probe loops end is proved exact at every
  level: the wrap-around at 2^32 lets the probes of each key meet every slot (`HashTable.EverySlotProbed`), so a
  search ends if and only if the key or an empty slot is there, an insertion of an absent key unless the largest
  table is full, a rehash always, and a run if and only if each operation is permitted where it is made
  (`HashRuns.RunRefines`).
  A client that looks for and deletes stored keys only never meets the trap (`HashRuns.KnownRunEnds`), nor does one
  that never deletes (`HashLoad.QuietRunEnds`). How soon probing ends is `HashRuns.ProbingEnds`.
- The comment at kernel/kernel/klib/map.c:6 gives the capacity of a level as the largest prime whose nodes take less
  than 2^level bytes; by the numbers it is 2^(level + 4) (`HashRuns.LargestPrime`).
- Mutex. `task_schedule` turns interrupts on (kernel/kernel/schedule.c:33), so the second pass of the acquire loop
  is interruptible and is modelled in three steps. `Scheduling.EnqueueWakeup` says exactly when going to sleep there
  keeps the guarantee that a waiter will be woken, and `Scheduling.RunKeepsWakeup` that a run never loses a wakeup
  if and only if every such sleep in it met that condition. `Scheduling.LostWakeupWitness` is a run that loses one;
  runs in which a failed test goes to sleep undisturbed do not (`Scheduling.PromptRun`).
  `Preemption.Interrupted` takes going to sleep apart into its nine stores and says after which of them an interrupt
  finds every task in exactly one list, and after which the task is lost.
- Page tables. Flags are or-ed into the table's address (kernel/kernel/vmm.c:52) and the frame's
  (kernel/kernel/vmm.c:60). `PageTable.StepInOrder` and `PageTable.MapThenLookup` say exactly which flags are
  harmless; flags below 4096 always are, and `PageTable.FlagsTrouble` is a change with others.
- The comment in kernel/include/kernel/kmm.h says that a manager holds 453 allocators; the code's arithmetic gives
  408, which the model uses.

## Model

| member | source | states |
|---|---|---|
| Rounding.PowerShape | kernel/kernel/math.c:3-5 | the bit test holds of a positive word exactly if it is a power of two |
| Rounding.Smeared | kernel/kernel/math.c:11-15 | the five shift-and-or steps set every bit below the leading one and no other |
| Rounding.SmearRoundsUp | kernel/kernel/math.c:8-18 | for a non-power the smeared word plus one is the least power of two that is not smaller, and 0 above 2^31 |
| Rounding.NextPowerOf2 | kernel/kernel/math.c:8-18 | the method yields the least power of two that is not smaller (1 for 0), and 0 exactly for words above 2^31 |
| Rounding.PowerOf2 | kernel/kernel/math.c:20-27 | the shift loop counts the trailing zero bits |
| Rounding.ExponentOfPower | kernel/kernel/math.c:20-27 | of a power of two the trailing zeros are the exponent |
| Rounding.LevelFor | kernel/kernel/pmm.c:163-167 | a request for up to 2^31 frames gets the least level whose block is large enough |
| Rounding.LeastLevelUnique | kernel/kernel/pmm.c:163-167 | there is only one such level |
| Layout.BlockInZone | kernel/kernel/pmm.c:92-104 | every block inside the frame count lies above the frame table and ends inside the zone, whatever the alignment costs |
| Layout.RegionHolds | kernel/kernel/pmm.c:92-104 | a region of at least two frames with their records has a frame, and all its frames lie above address 0 and end inside it |
| Layout.RegionUsed | kernel/kernel/pmm.c:94 | the frame count is one short of the largest number of frames that fit into the region together with their records |
| Layout.AddressRoundTrip | kernel/kernel/pmm.c:210-215 | the address of a frame, and of every byte in it, leads back to its index; an address below the frames leads past the table |
| Layout.SentinelClear | kernel/kernel/pmm.c:139-142 | the store into the record behind the table stays clear of frame 0 exactly if the table ends in the middle part of a page |
| Layout.WholePages | kernel/kernel/pmm.c:99-102 | a table of 28672 records, a multiple of 1024, that starts on a page boundary ends right at frame 0, so that the store hits it |
| Layout.RequestFits | kernel/kernel/pmm.c:153-167 | a block holds the bytes asked for, and one of half the size would not |
| Tiling.MergeCells | kernel/kernel/pmm.c:236-262 | merging a live block with its free buddy keeps an aligned, coalesced tiling and removes exactly the buddy from the free blocks |
| Tiling.MergeFrames | kernel/kernel/pmm.c:236-262 | a merge moves the buddy's frames from free to the block in hand and touches no other live block |
| Tiling.SplitTiled | kernel/kernel/pmm.c:188-196 | a split keeps the tiling aligned and without gaps or overlaps |
| Tiling.SplitFrames | kernel/kernel/pmm.c:188-196 | a split frees exactly the right half |
| Tiling.Collapse | kernel/kernel/pmm.c:236-262 | in a coalesced tiling an aligned run of free frames that is not part of a larger block is one free block |
| Tiling.FreeRunIffBlock | kernel/kernel/pmm.c:171-183 | an aligned free run of a level exists exactly if some block of that level or above is free |
| Tiling.CanonicalForm | kernel/kernel/pmm.c:128-144 | there is only one coalesced tiling in which every block is free |
| BuddyZone.PopKeeps | kernel/kernel/pmm.c:185-186 | popping a list's head leaves lists and records in agreement, with that block in hand |
| BuddyZone.SplitKeeps | kernel/kernel/pmm.c:188-196 | one turn of the splitting loop lists the right half and keeps lists, records, tiling and coalescing |
| BuddyZone.ClaimKeeps | kernel/kernel/pmm.c:198-202 | the final stores record the block in hand as handed out |
| BuddyMerge.MergeableIsFree | kernel/kernel/pmm.c:236-238 | inside the table the merge test finds exactly a free buddy of the same level |
| BuddyMerge.MergeKeeps | kernel/kernel/pmm.c:236-262 | one turn of the merge loop unlinks the buddy from wherever it is in its list and keeps the invariant, if a head's back link is clean |
| BuddyZone.PushKeeps | kernel/kernel/pmm.c:264-271 | pushing the merged block restores the invariant, if its buddy is not free |
| BuddyMerge.StaleHeadStays | kernel/kernel/pmm.c:239-246 | a list head that was absorbed without being unlinked leaves the zone out of order, however the loop goes on |
| BuddyMerge.OutgrownStays | kernel/kernel/pmm.c:236-262 | a block merged with memory behind the table leaves the zone out of order |
| BuddyMerge.FreeTwice | kernel/kernel/pmm.c:230-274 | freeing a block that is free already leaves the zone out of order |
| BuddyMerge.FreeUp | kernel/kernel/pmm.c:236-271 | by induction over the levels, the merge loop and the push end in order exactly if the chain of buddies was safe |
| BuddyCalls.HasRunIffBlock | kernel/kernel/pmm.c:177-183 | the search over the list heads succeeds exactly if an aligned free run of the size exists |
| BuddyCalls.AllocCorrect | kernel/kernel/pmm.c:171-206 | allocation succeeds exactly if an aligned run of 2^level free frames exists; it takes such a run, records it as handed out, and changes neither any other block nor, on failure, anything |
| BuddyCalls.AllocBestFit | kernel/kernel/pmm.c:177-186 | the run is the start of a free block of the least sufficient level: no larger block is split while a smaller one would do |
| BuddyCalls.FreeCorrect | kernel/kernel/pmm.c:224-274 | after a free call the zone is in order exactly if the call was safe; then exactly the block's frames became free and exactly the block is no longer handed out |
| BuddyCarve.FitLevelFits | kernel/kernel/pmm.c:131-134 | the inner carving loop finds the largest level, up to the current one, that still fits |
| BuddyCarve.CarveOutcome | kernel/kernel/pmm.c:111-144 | with at least 1024 frames the carving loop leaves a zone in order with every frame free |
| BuddyCarve.CarveSmall | kernel/kernel/pmm.c:128-144 | with fewer, the wrapped subtraction leaves a zone that is not in order |
| BuddyCarve.CarveExact | kernel/kernel/pmm.c:128-144 | the carved zone is in order exactly if there are at least 1024 frames |
| BuddyRuns.StepInOrder | kernel/kernel/pmm.c:171-274 | every safe call keeps the zone in order |
| BuddyRuns.RunInOrder | kernel/kernel/pmm.c:171-274 | so does every safe run: tiled, coalesced, with lists and records in agreement |
| BuddyRuns.Conservation | kernel/kernel/pmm.c:171-274 | in a zone in order every frame is free or in exactly one block handed out |
| BuddyRuns.Restoration | kernel/kernel/pmm.c:128-274 | after any safe run that ends with nothing handed out, the table's blocks are exactly those the run started with |
| BuddyRuns.FixedRunSafe | kernel/kernel/pmm.c:185-196 | with the two missing stores, and quiet memory behind the table, every run without a double free is safe |
| BuddyRuns.WholeRunSafe | kernel/kernel/pmm.c:234-262 | with the two missing stores and a multiple of 1024 frames, whatever lies behind the table, every run without a double free is safe |
| BuddyRuns.StaleHeadWitness | kernel/kernel/pmm.c:185-249 | from a zone of 1024 frames a safe run of the shipped code leads to a block handed out whose release breaks the lists |
| BuddyTail.DisturbedOutcome | kernel/kernel/pmm.c:171-274 | a zone in order stays so, with the same frames and blocks, whatever is written behind its table |
| BuddyTail.AllocIgnoresTail | kernel/kernel/pmm.c:171-206 | an allocation takes the same block and leaves the same table whatever lies behind it |
| BuddyTail.AllocTail | kernel/kernel/pmm.c:188-196 | behind the table an allocation stores to the back link of record n and nothing else: the index of the last right half if it splits, and nothing if it does not |
| BuddyTail.FreeTail | kernel/kernel/pmm.c:224-274 | a safe release stores nothing behind the table |
| FrameZone.NormalMem.constructor | kernel/kernel/pmm.c:92-144 | from the bounds of the region: frame count, one short of the largest that fits with its records, frame base, table and carving in place; in order exactly from 1024 frames on |
| FrameZone.NormalMem.CarveZone | kernel/kernel/pmm.c:128-144 | the carving loop on the arrays performs Carve |
| FrameZone.NormalMem.GetFramePageBlock | kernel/kernel/pmm.c:171-206 | the allocation loops on the arrays perform Alloc |
| FrameZone.NormalMem.FreeFramePageBlock | kernel/kernel/pmm.c:224-274 | the merge loop on the arrays performs Free |
| FrameZone.NormalMem.FrameAlloc | kernel/kernel/pmm.c:163-167 | in a zone in order a request gets a block of the least sufficient level, exactly if an aligned free run of it exists |
| FrameZone.NormalMem.FrameFree | kernel/kernel/pmm.c:217-221 | a free call gives back exactly the block, and the zone stays in order exactly under the guard |
| FrameZone.NormalMem.PhysicAlloc | kernel/kernel/pmm.c:153-160 | the address returned is that of a block large enough and less than twice too large, behind the table and inside the region, or 0 if no such run is free |
| FrameZone.NormalMem.PhysicFree | kernel/kernel/pmm.c:210-215 | any byte of a block's first frame gives back that block, safely exactly under the guard; an address below the frames does nothing |
| Primes.TrialDivision | kernel/kernel/klib/map.c:7 | a number without divisor up to its square root is prime: how the capacities are certified |
| Primes.Euclid | kernel/kernel/klib/map.c:22-24 | a prime that divides a product divides a factor, the step behind the probe bound |
| Primes.SquaresDiffer | kernel/kernel/klib/map.c:22-28 | h + i*i takes different residues modulo a prime for the first (p + 1) / 2 values of i |
| Squares.SquareOf | kernel/kernel/klib/map.c:22-24 | in 32-bit arithmetic i*i takes every value that is 1 modulo 8 |
| HashTable.EverySlotProbed | kernel/kernel/klib/map.c:22-28 | for odd capacities up to that of level 27 the 32-bit probes of every key meet every slot |
| HashTable.FindEnds | kernel/kernel/klib/map.c:57-70 | in any table, sound or not, a search ends exactly if the key is stored or a slot is empty |
| HashTable.InsertSlotEnds | kernel/kernel/klib/map.c:91-103 | in any table the probing of an insertion ends exactly if the key is stored or a slot is not occupied |
| HashTable.FindCorrect | kernel/kernel/klib/map.c:57-70 | a search ends exactly if the key is in the dictionary or a slot is empty, and then gives the dictionary's answer |
| HashTable.InsertSlotCorrect | kernel/kernel/klib/map.c:91-103 | inserting an absent key ends exactly if the table is not full; then exactly that key is added, over an empty slot or a tombstone, and every stored key stays reachable |
| HashTable.InsertSlotTwice | kernel/kernel/klib/map.c:91-103 | inserting a present key leaves a table that represents no dictionary |
| HashTable.InsertCorrect | kernel/kernel/klib/map.c:86-103 | map_insert with growth ends unless the key is absent from a full table of level 27; the result is a sound table exactly if the key was absent, and then the key was added; when it grows is HashLoad.InsertLevel |
| HashTable.DeleteCorrect | kernel/kernel/klib/map.c:105-114 | map_delete with shrinking ends exactly if it shrinks, the key is stored or a slot is empty, and removes exactly the key |
| HashTable.RehashCorrect | kernel/kernel/klib/map.c:32-50 | a rehash into room for the keys ends at every level, keeps the dictionary and the size and drops every tombstone |
| HashTable.NoNestedGrow | kernel/kernel/klib/map.c:45-48 | the insertions of a rehash never trigger another rehash |
| HashTable.NeighbourRoom | kernel/kernel/klib/map.c:7 | each capacity leaves room for the keys of its neighbour at the load limits |
| HashTable.InitSound | kernel/kernel/klib/map.c:9-18 | a new map is the empty dictionary |
| HashTable.GrownCorrect | kernel/kernel/klib/map.c:86-90 | growing ends, keeps the dictionary, and below level 27 leaves room for one more key |
| HashRuns.StepEnds | kernel/kernel/klib/map.c:52-114 | on a sound table an operation ends exactly if it is permitted: a check on the table before the call |
| HashRuns.RunRefines | kernel/kernel/klib/map.c:52-114 | a run of fresh inserts, deletes and finds ends exactly if each operation is permitted where it is made; then the table is that of the dictionary the run describes and every find has returned what that dictionary held |
| HashRuns.RunExact | kernel/kernel/klib/map.c:52-114 | every table of a run is that of the dictionary exactly if only absent keys are inserted and every operation is permitted |
| HashRuns.KnownRunEnds | kernel/kernel/klib/map.c:52-114 | a run that finds and deletes stored keys only, and inserts absent ones up to the largest capacity, ends from any sound table |
| HashRuns.SizeIsCardinality | kernel/kernel/klib/map.c:102-112 | `size` is the number of keys of that dictionary |
| HashRuns.LevelPrime | kernel/kernel/klib/map.c:7 | the capacities of levels 3 to 16 are prime and at most 87359 |
| HashRuns.LargestPrime | kernel/kernel/klib/map.c:6-7 | for levels 3 to 16 the capacity is the largest prime whose nodes of 12 bytes take less than 2^(level + 4) bytes |
| HashRuns.PathIsQuadratic | kernel/kernel/klib/map.c:58-66 | up to capacity 87359 the 32-bit index is h + i*i without wrapping |
| HashRuns.ProbesDiffer | kernel/kernel/klib/map.c:22-28 | the first (capacity + 1) / 2 probes meet different slots |
| HashRuns.ProbingEnds | kernel/kernel/klib/map.c:57-70 | with fewer than half of the slots non-empty both probe loops end within that many steps |
| HashRuns.RehashHalfEmpty | kernel/kernel/klib/map.c:32-50 | up to level 16 a rehash leaves a table that is less than half full exactly if the keys fill less than half of it; then probing is that short |
| HashRuns.WornReached | kernel/kernel/klib/map.c:86-114 | inserting and deleting in turn wears a new table out with tombstones |
| HashRuns.TombstoneTrap | kernel/kernel/klib/map.c:57-70 | in the worn table, with one key stored, looking for an absent key never ends |
| HashLoad.InsertLevel | kernel/kernel/klib/map.c:86-103 | map_insert moves to the next level exactly if three quarters of the slots are occupied, below level 27, and counts one key more |
| HashLoad.DeleteLevel | kernel/kernel/klib/map.c:105-114 | map_delete moves to the level below exactly if at most a quarter is, above level 3, and counts one key less exactly if it was stored |
| HashLoad.RunLoaded | kernel/include/klib/map.h:16-20 | over every run that ends the load stays between a quarter and three quarters, give or take one key, except that the first level may be emptier and the last fuller |
| HashLoad.NoThrashing | kernel/kernel/klib/map.c:86-114 | a growth is not undone by the deletion that follows |
| HashLoad.NoThrashingBack | kernel/kernel/klib/map.c:86-114 | nor a shrinking by the insertion that follows |
| HashLoad.QuietRunEnds | kernel/kernel/klib/map.c:52-103 | without deletions every run of fresh inserts and of finds of any key, stored or not, ends with the dictionary's answers, up to one key short of the last capacity |
| HashMap.Map.constructor | kernel/kernel/klib/map.c:9-18 | map_init in place |
| HashMap.Map.FindIndex | kernel/kernel/klib/map.c:57-70 | the probe loop on the array finds the slot the specification finds |
| HashMap.Map.Find | kernel/kernel/klib/map.c:77-84 | map_find returns the dictionary's value, or nothing if the key is absent |
| HashMap.Map.Insert | kernel/kernel/klib/map.c:86-103 | map_insert in place, growing rehash included, where it ends: the dictionary gains an absent key, and a present one leaves no dictionary's table; the level rises exactly if three quarters of the slots were occupied, below level 27 |
| HashMap.Map.Rehash | kernel/kernel/klib/map.c:32-50 | map_rehash in place, by way of map_insert, into room for the keys: the dictionary stays |
| HashMap.Map.Delete | kernel/kernel/klib/map.c:105-114 | map_delete in place, shrinking rehash included, where it ends: the dictionary loses exactly the key; the level falls exactly if at most a quarter of the slots was occupied, above level 3 |
| PageTable.FlaggedPage | kernel/kernel/vmm.c:52-60 | or-ing flags onto a page address keeps the address exactly if they add no bit to it |
| PageTable.TableAdded | kernel/kernel/vmm.c:49-55 | a table added by map is the directory entry's own, shared with no other entry, exactly if the flags leave its address intact; the flags in the entry are PageWords.StepWords |
| PageTable.StepInOrder | kernel/kernel/vmm.c:42-78 | map, unmap and dropping the boot entry keep the tables in order exactly under that condition |
| PageTable.StepRefines | kernel/kernel/vmm.c:42-96 | one change acts on the lookups of all addresses as an assignment to a partial map |
| PageTable.MapThenLookup | kernel/kernel/vmm.c:42-96 | get_mapping after map returns the page mapped, exactly if the word is not empty and the flags add no bit to the page number |
| PageTable.RunRefines | kernel/kernel/vmm.c:42-96 | after any run of changes every address is looked up as the last change of its page left it |
| PageTable.LastMapSurvives | kernel/kernel/vmm.c:42-96 | after any run a page holds the frame of its last map, if nothing later writes the page |
| PageTable.InitialInOrder | kernel/kernel/vmm.c:9-32 | init_vmm leaves a directory whose entries have a table each |
| PageTable.WindowIsLinear | kernel/kernel/vmm.c:19-32 | every page of the kernel window is looked up as its address minus 0xC0000000 |
| PageTable.WindowStays | kernel/kernel/vmm.c:19-96 | and stays so over every run that does not write that page |
| PageTable.FlagsTrouble | kernel/kernel/vmm.c:58-62 | right after init_vmm, mapping page 0x2000 with flags 0x1003 maps another page |
| PageWords.OrWord | kernel/kernel/vmm.c:52-60 | or-ing flags onto a page address leaves their low twelve bits as they are |
| PageWords.LowBits | kernel/kernel/vmm.c:42-64 | whatever the flags, after map the table word has their low bits, and so has the directory word of a table that was added |
| PageWords.StepWords | kernel/kernel/vmm.c:42-78 | for flags below 4096 map leaves page plus flags in the table word and, if it added the table, frame plus flags in the directory word; unmap leaves 0; every other word stays |
| PageWords.RunLeaf | kernel/kernel/vmm.c:42-78 | after any run the table word of each page is what its last change left |
| PageWords.EntryKept | kernel/kernel/vmm.c:47-57 | over any run an entry with a table keeps its word, flags included, until the boot table is dropped |
| PageWords.EntryCreated | kernel/kernel/vmm.c:47-57 | and that word is the frame and the flags of the first map into it |
| PageWords.StepPresent | kernel/kernel/vmm.c:42-78 | every word in use stays present after a change exactly if a map asks for PAGE_PRESENT or empties a word of a table that is there |
| PageWords.RunTranslated | kernel/kernel/vmm.c:42-96 | over runs of such maps the processor translates every address to what the last change of its page left there: exactly what get_mapping finds |
| PageWords.InitialWords | kernel/kernel/vmm.c:9-32 | init_vmm leaves each page of the window and its table present and writable, the boot table in entry 0, and nothing elsewhere |
| PageWords.InitialPresent | kernel/kernel/vmm.c:9-32 | all words in use are present after it exactly if those of the boot loader's table are |
| AddressSpace.Paging.constructor | kernel/kernel/vmm.c:9-32 | the loops of init_vmm on directory and tables yield the initial state |
| AddressSpace.Paging.Map | kernel/kernel/vmm.c:42-64 | map in place, with the new table cleared; the table word has the low bits of the flags, and so has the directory word exactly where a table was added; otherwise the directory is untouched |
| AddressSpace.Paging.Unmap | kernel/kernel/vmm.c:66-78 | unmap in place |
| AddressSpace.Paging.GetMapping | kernel/kernel/vmm.c:80-96 | get_mapping finds what the lookup finds, and nothing if no place for the result is given |
| AddressSpace.Paging.DropBootTable | kernel/kernel/kernel.c:59 | clearing entry 0 drops the boot table and nothing else |
| Rings.ListAdd | kernel/include/klib/list.h:23-28 | the four stores of _list_add |
| Rings.ListAddTail | kernel/include/klib/list.h:34-36 | on a ring the node is inserted before the given one, and a ring apart from it is untouched |
| Rings.ListDel | kernel/include/klib/list.h:38-48 | on a ring the node is taken out, and a ring apart from it is untouched |
| Scheduling.StepKeepsLists | kernel/include/kernel/sync.h:60-86 | every step keeps each task in exactly one list, current and next task runnable, and tasks blocked = tasks woken, in order, then those still waiting |
| Scheduling.StepKeepsExclusive | kernel/include/kernel/sync.h:60-86 | every step keeps at most one owner of the mutex, and the lock word set exactly while there is one |
| Scheduling.StepKeepsHolder | kernel/include/kernel/sync.h:60-86 | the holder field is the identifier of the task past the acquire loop, and -1 exactly if there is none |
| Scheduling.RunKeeps | kernel/include/kernel/sync.h:60-86 | both over every run, and the holder field names exactly the task past the acquire loop |
| Scheduling.GuardExact | kernel/kernel/schedule.c:13-19 | taking the current task off the run list leaves the next one on it exactly if they differ |
| Scheduling.StepKeepsIdle | kernel/kernel/schedule.c:22-34 | if task 0 never blocks, every task that blocks may: the next task is another one |
| Scheduling.IdleRunRuns | kernel/kernel/schedule.c:22-34 | so every such run is possible to its end and never follows the links of a waiting list |
| Scheduling.BootInOrder | kernel/kernel/task.c:19-36 | the state after init_task satisfies all invariants |
| Scheduling.EnqueueWakeup | kernel/include/kernel/sync.h:62-67 | going to sleep in an interrupted pass keeps the wakeup guarantee exactly if the lock is still taken or another woken task is about to test it |
| Scheduling.StepKeepsWakeup | kernel/include/kernel/sync.h:60-86 | every step but that one keeps it, wherever interrupted passes stand: while somebody waits, the lock is taken or a woken task will test it |
| Scheduling.RunKeepsWakeup | kernel/include/kernel/sync.h:60-86 | no state of a run has lost a wakeup exactly if each sleep of a later pass in it was safe |
| Scheduling.PromptRun | kernel/include/kernel/sync.h:60-86 | runs in which a failed test goes to sleep undisturbed are such runs |
| Scheduling.LostWakeupWitness | kernel/include/kernel/sync.h:62-67 | a run from the initial state in which a wakeup is lost |
| Scheduling.RoundRobin | kernel/kernel/schedule.c:13-34 | the k-th tick runs the k-th task around the run list |
| Scheduling.Fairness | kernel/kernel/schedule.c:13-34 | with n runnable tasks each is current after exactly one of n ticks in a row |
| RunQueue.StepQueue | kernel/include/kernel/sync.h:60-86 | read from the next task on, the run list is a queue: a tick runs its head and sends it to the end, going to sleep takes the current task out and does the same, a woken task becomes the head, a created one goes right before the current task, and nothing else changes queue or processor |
| RunQueue.BlockOrder | kernel/include/kernel/sync.h:64-66 | after going to sleep the next task has the processor, and the first other task that follows it on the run list is next |
| RunQueue.HandedOver | kernel/include/kernel/sync.h:73-86 | the task that mutex_release wakes is the one the processor goes to from there |
| RunQueue.NotPassedOver | kernel/kernel/schedule.c:13-34 | over every run, blocking included, a runnable task with k ahead of it in the queue has the processor after at most k + 1 switches, plus one for each task that came onto the run list meanwhile |
| Preemption.Interrupted | kernel/include/kernel/sync.h:64-66 | of the nine stores that put a task to sleep, an interrupt before the first or after the eighth finds every task in exactly one list, with its state right only before the first and after the last; after the first to the sixth no list leads to the task |
| KernelTasks.Kernel.constructor | kernel/kernel/task.c:19-36 | init_task on the rings yields the initial state |
| KernelTasks.Kernel.NextTask | kernel/kernel/schedule.c:13-19 | following the links, past the list head, gives the successor in the run list |
| KernelTasks.Kernel.TaskSchedule | kernel/kernel/schedule.c:22-34 | task_schedule makes the next task current and its successor next |
| KernelTasks.Kernel.TimerTick | kernel/kernel/schedule.c:36-39 | a timer tick performs the Tick step |
| KernelTasks.Kernel.MutexAcquire | kernel/include/kernel/sync.h:60-71 | the first pass of mutex_acquire, on the rings, performs the Acquire step; whom a failing pass hands the processor to is RunQueue.StepQueue and RunQueue.BlockOrder |
| KernelTasks.Kernel.MutexRetest | kernel/include/kernel/sync.h:62 | the test of a later pass performs the Retest step |
| KernelTasks.Kernel.MutexClaim | kernel/include/kernel/sync.h:69 | the holder is written by the Claim step |
| KernelTasks.Kernel.MutexEnqueue | kernel/include/kernel/sync.h:64-66 | a later pass that failed performs the Enqueue step, to which the same applies |
| KernelTasks.Kernel.MutexRelease | kernel/include/kernel/sync.h:73-86 | mutex_release, on the rings, performs the Release step |
| KernelTasks.Kernel.ThreadCreate | kernel/kernel/task.c:39-65 | thread_create puts a task with the next identifier ahead of the current one |
| SlicePage.SliceInPage | kernel/kernel/kmm.c:182-188 | every slice lies in its page, behind its header and the allocator pointer |
| SlicePage.NoMoreSlots | kernel/kernel/kmm.c:134-137 | no further slice would fit into the page |
| SlicePage.SlicesApart | kernel/kernel/kmm.c:184-201 | no two slices of a page share a byte |
| SlicePage.HeaderNotInSlice | kernel/kernel/kmm.c:184-188 | no slice contains a header byte |
| SlicePage.SlotRecovered | kernel/kernel/kmm.c:247-256 | the division in kfree finds the slot the address came from |
| SlicePage.NewPageHolds | kernel/kernel/kmm.c:134-151 | a new page has every slot free but the one handed out, chained from slot 1 or marked in the bitmap |
| SlicePage.ShiftedFull | kernel/kernel/kmm.c:204 | the comparison of the shifted bitmap asks whether every slot is taken |
| SlicePage.TakeHolds | kernel/kernel/kmm.c:178-207 | get_slice_addr takes a free slot, keeps the chain or bitmap exact, and reports the page full exactly when avail_num reaches 0 |
| SlicePage.GiveBackHolds | kernel/kernel/kmm.c:239-261 | kfree adds exactly the slot to the free ones if ChainSafe held, and otherwise leaves a page that describes no set of free slots |
| SlicePage.OwnerWrites | kernel/include/kernel/kmm.h:19-24 | writing any byte of a slice leaves the record of free slots alone |
| SlicePage.LowestFree | kernel/kernel/kmm.c:193-201 | with a bitmap the lowest free slot is handed out next |
| SlicePage.LastGivenBack | kernel/kernel/kmm.c:247-252 | with a chain the slot given back last is |
| SliceManager.HeadOf | kernel/kernel/kmm.c:100-126 | a list's head is an allocator of the list's kind, and the list is empty exactly if there is none |
| SliceManager.MovedAgree | kernel/kernel/kmm.c:271-302 | moving an allocator between lists keeps all three well formed and holding exactly the allocators of their kind |
| SliceManager.AdvanceIsMove | kernel/kernel/kmm.c:107-118 | the move written out in kmalloc_helper is the one of kfree applied to a list's head |
| SliceManager.NewManagerInOrder | kernel/kernel/kmm.c:45-64 | init_allocator_manager puts all 408 allocators on the free list |
| SliceManager.TakeSliceKeeps | kernel/kernel/kmm.c:100-122 | taking a slice of the first partially full page keeps the manager in order, moving the allocator exactly when its page became full |
| SliceManager.StartPageKeeps | kernel/kernel/kmm.c:125-166 | so does taking a new page |
| SliceManager.FreedKeeps | kernel/kernel/kmm.c:263-303 | so does giving a slice back, with the page returned exactly when its last slice is |
| SliceHeap.AllocatorRecovered | kernel/kernel/kmm.c:236-241 | masking and dividing an allocator's address gives its manager and its number |
| SliceHeap.NoMoreAllocators | kernel/include/kernel/kmm.h:44 | 408 allocators of ten bytes fit behind the header of a manager's page, and no more |
| SliceHeap.LiveApart | kernel/kernel/kmm.c:66-77 | any two slices in use, of whatever class, do not overlap and lie in their pages |
| SliceCalls.KmallocCorrect | kernel/kernel/kmm.c:66-175 | up to 2048 bytes kmalloc yields a slice that was not in use, of the smallest class that fits, and leaves every other slice as it was, contents included |
| SliceChoice.RoomMeans | kernel/kernel/kmm.c:100-126 | the tests on the two list heads ask whether some page of the manager has a free slice or some allocator no page |
| SliceChoice.SeekIsFirst | kernel/kernel/kmm.c:169-172 | the manager that serves a request is the first of the chain that is not exhausted |
| SliceChoice.KmallocChooses | kernel/kernel/kmm.c:86-175 | kmalloc adds a manager, in front, exactly if every manager of the smallest class that fits is exhausted; it takes a page for slices exactly if the first that is not has no free slice; no other manager changes |
| SliceChoice.RecentFirst | kernel/kernel/kmm.c:98-166 | the page started last, or the full one that got a slice back last, serves the next request |
| SliceChoice.LargeRequests | kernel/kernel/kmm.c:66-81 | more than 2048 bytes leave the slices alone; more than 4 MB are refused |
| SliceCalls.KfreeCorrect | kernel/kernel/kmm.c:229-305 | kfree of a slice in use gives back that slice and no other; the heap stays in order exactly under the guard |
| SliceCalls.LastSliceMeans | kernel/kernel/kmm.c:263-269 | the counter test for returning a page asks whether no other slice of it is in use |
| SliceRuns.StepKeeps | kernel/kernel/kmm.c:66-305 | every allowed request keeps the heap in agreement with what its callers hold and have written |
| SliceRuns.RunKeeps | kernel/kernel/kmm.c:66-305 | so does every allowed run |
| SliceRuns.FixedRun | kernel/kernel/kmm.c:245-252 | with the repair every run of proper requests is allowed |
| SliceRuns.LargeIsSafe | kernel/kernel/kmm.c:253-261 | slices over 256 bytes need no repair |
| SliceRuns.InitialAgreed | kernel/kernel/kmm.c:31-43 | init_kmm yields a heap in order with nothing held |
| SliceRuns.HeldApart | kernel/kernel/kmm.c:66-77 | the slices held never overlap and never cross a page boundary |
| SliceRuns.HeldReads | kernel/include/kernel/kmm.h:19-24 | a byte written into a slice held reads as written last, whatever was allocated and freed meanwhile |
| SliceRuns.HeldPages | kernel/kernel/kmm.c:263-269 | the pages taken and not returned are exactly those with a slice held: each goes back once, with its last slice |
| SliceTrouble.ChainTrouble | kernel/kernel/kmm.c:178-261 | from init_kmm on, after two requests for 16 bytes the release of the first slice finds the guard unmet and leaves the heap out of order |
| SliceTrouble.ListTrouble | kernel/kernel/kmm.c:178-303 | four calls on, 238 free slices of the page are lost and one allocator is at the head of two lists |
| SliceMemory.FindClass | kernel/kernel/kmm.c:70-77 | the loop over the slice sizes finds the smallest class that fits |
| SliceMemory.ManagerPage.constructor | kernel/kernel/kmm.c:45-64 | init_allocator_manager on the arrays, in order |
| SliceMemory.ManagerPage.InitLinkedPage | kernel/kernel/kmm.c:209-225 | the loop over the page's header bytes chains all slots behind the allocator pointer |
| SliceMemory.ManagerPage.FindClear | kernel/kernel/kmm.c:196-199 | the loop over the bitmap finds the first clear bit |
| SliceMemory.ManagerPage.GetSliceAddr | kernel/kernel/kmm.c:178-207 | get_slice_addr in place, with the address and the report it returns |
| SliceMemory.ManagerPage.Kmalloc | kernel/kernel/kmm.c:98-168 | kmalloc_helper in place on a manager in order with room: the step, the address, and the manager in order again |
| SliceMemory.FreedDescribed | kernel/kernel/kmm.c:239-303 | after giving back a slice in use some record of free slots describes the manager exactly under the guard |
| SliceMemory.ManagerPage.Kfree | kernel/kernel/kmm.c:239-303 | kfree of a slice in use in place, from the allocator found on: the step, whether the page went back, and the manager in order exactly under the guard |
| PageAccounts.GrabBacked | kernel/kernel/kmm.c:22-29 | a frame is granted exactly if one is free; it was not in use, and the accounts of pages and blocks stay true |
| PageAccounts.GivePage | kernel/kernel/kmm.c:268 | returning a page keeps the accounts exactly under the frame allocator's guard |
| KernelMemory.KmallocUses | kernel/kernel/kmm.c:80-175 | kmalloc takes exactly the pages it asks for: one for a manager if none has room, one for slices if none is partially full |
| KernelMemory.NeedsExact | kernel/kernel/kmm.c:86-175 | the first is asked for exactly if every manager of the class is exhausted, the second exactly if the first manager that is not has no free slice |
| KernelMemory.KfreeUses | kernel/kernel/kmm.c:263-269 | kfree gives up the page exactly with its last slice |
| KernelMemory.SupplyFresh | kernel/kernel/kmm.c:22-29 | the frames granted are pages the heap does not use: what the slice allocator assumes of its supply |
| PageSentinel.StoresExact | kernel/kernel/pmm.c:188-196 | an allocation leaves a value of its own in the back link of record n, whatever was there, exactly if the list of its level is empty |
| PageSentinel.SparesExact | kernel/kernel/pmm.c:99-192 | that overwrites a byte of a frame in use exactly if the table does not end clear of frame 0 and frame 0 is not free |
| KernelMemory.StepAccounts | kernel/kernel/kmm.c:66-305 | after kmalloc, kfree, a write, or anybody's allocation or release of a block, slices and frames are in order and accounted for exactly if both guards were met where a page or block goes back |
| KernelMemory.StepTail | kernel/kernel/pmm.c:171-274 | behind the table such an event stores to the back link of record n and to nothing else, and only where it takes frames |
| KernelMemory.StepExact | kernel/kernel/kmm.c:66-305 | they are so, and no frame in use was overwritten, exactly if the guard of that store was met as well |
| KernelRuns.RunKeeps | kernel/kernel/kmm.c:66-305 | so they are after every guarded run, whatever is written behind the table between the events |
| KernelRuns.RepairedRun | kernel/kernel/kmm.c:245-269 | with the repairs of both allocators, a multiple of 1024 frames and a table that ends clear of frame 0 every run of proper events is guarded |
| KernelRuns.EveryFrame | kernel/kernel/kmm.c:66-305 | nothing leaks: a frame is free unless it is a manager's page, a page with a slice held or in a block held, and it is only one of these |
| KernelRuns.Boot | kernel/kernel/kmm.c:31-43 | init_kmm on a zone just carved takes eight frames and leaves all this in order, if each of them is spared while the next are taken |
| KernelRuns.BootSpared | kernel/kernel/kmm.c:31-43 | they are spared exactly if no store behind the table hits a frame taken before, and always if the table ends clear of frame 0 |
| KernelRuns.BootOversteps | kernel/kernel/kmm.c:31-43 | with a table of 1024 records from 0x200800 on the third frame taken overwrites bytes 10 to 13 of the first manager |

## Left out

- Boot code, GDT, IDT, interrupt stubs, port I/O, `switch_context`, `invlpg` and `cr3`: hardware effects.
- Terminal, graphics, fonts, keyboard, `printf` and `libc/string`: devices and plain loops.
- The scan of the multiboot memory map: the zone's base and end are inputs.
- `thread_exit`: it takes tasks off lists without regard to `_next_task` and frees what did not come as a slice.
- Timers, spin locks and klib/queue.h: small, or only sequentially true.
- Slices: requests over 2048 bytes are answered by the frame allocator and are blocks, not slices, in `KernelMemory`; `kfree` of such a block has no allocator to find.
- Slices: requests for which the free frames do not suffice; `kmm.c` writes through the address it computes from the failure. `KernelMemory.Proper` says how many frames a request needs.
- Kernel memory: pages are named by the physical address, without the PAGE_OFFSET that `kmm.c` adds and takes off again. The zone's and the heap's halves are composed on values, not as one class.
- Slices: the chain of managers and the frames' allocator fields are modelled on values (`SliceHeap`), with the class covering one manager and its pages; the chain's `next` pointers, which only ever gain a new first manager, are a sequence.
- Page tables: the frame for a new table is an input, assumed unused; the PAGE_OFFSET by which tables are reached through the kernel window is not modelled, nor are several directories that share tables.
- Rounding.LevelFor: requests for more than 2^31 frames, for which `next_power_of_2` yields 0 and the loop of `power_of_2` never ends, are excluded; no byte count leads to one.
- Buddy allocator: at most 512 records behind the table are modelled, which is as far as a merge can look. `BuddyRuns` keeps them as they are between calls; `KernelRuns` lets them change arbitrarily, without saying which byte of which frame a record is, apart from the back link of record n.
- `thread_create` beyond its effect on the lists and the identifier: stack, context and the entry in `tasks_map_ptr`.
- `kfree` of a null pointer, which returns at once.
- Scheduler: one mutex; the release of a lock by a task that does not hold it; context switches other than the change of the current task.
- Map: the allocation of node lists. From level 19 on a list is larger than MAX_ALLOC and `kmalloc` returns 0 (kernel/kernel/klib/map.c:34), and from level 8 on it is larger than 2048 bytes, so that `kfree` of the old list (kernel/kernel/klib/map.c:49) finds no allocator. What is proved of every level is proved of the table, as if its list had been supplied.
- HashRuns.LargestPrime: levels 17 to 27, whose primality is not proved either; nothing but the bound on the number of probes rests on it.
- Map: `UINT32_MAX` as the failed search's index; the model returns an option.
- FrameZone.NormalMem.constructor: a region of less than two frames with their records, which has no frame or wraps the count (kernel/kernel/pmm.c:94), is excluded.
- Rounding.PowerOf2: input 0, for which the loop never ends, is excluded; `physic_alloc` never passes it.
- AddressSpace.Paging.Map: flags that reach into the address of a table added by the call are excluded; the source then uses another frame as the table.
- Scheduling: `Enqueue` and `Create` are one step each, although the source runs kernel/include/kernel/sync.h:64-66 in a later pass, and the list insertion of `thread_create`, with interrupts on. `Preemption` says what an interrupt between the stores of `Enqueue` finds; runs that go on from there are not covered by `Scheduling.StepKeepsLists` and `Scheduling.RunKeeps`.
- KernelTasks.Kernel.MutexEnqueue: taken as one step, as said above.
