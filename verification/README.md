# A verified model of the user-space NVMe driver

The repository is a user-space NVMe driver: it manages its DMA arena with a buddy allocator, cuts
reads and writes into NVMe commands, tracks them by command id on submission and completion rings,
and shares its session state under a small read/write spin lock.  This project models those parts
in Dafny and proves what each of them promises, over every run and every interleaving with the
controller.  `dafny verify dfyconfig.toml` checks the whole project.

## How it is organised

| file | module | content |
|---|---|---|
| `BuddyTiling.dfy` | `BuddyTiling` | the arena as a labelled partition; why merged buddies never hide a usable region |
| `BuddyArena.dfy` | `BuddyArena` | partition plus free lists; pop, refill, split, merge and insert keep them consistent |
| `BuddySpec.dfy` | `BuddySpec` | what an allocation and a free do to the arena; round trip and one-thread laws |
| `BuddyAllocator.dfy` | `BuddyAllocator` | the allocator on its arrays: link words inside the free blocks, list heads, lock |
| `RwLock.dfy` | `RwLock` | the spin lock as atomic steps of any number of threads |
| `Ring.dfy`, `NvmeQueue.dfy` | `Ring`, `NvmeQueues` | submission and completion rings, host side and controller side |
| `Prp.dfy` | `Prp` | PRP entries as the host writes them and as a controller reads them |
| `Bits.dfy`, `DescList.dfy` | `Bits`, `DescLists` | command-id masks in 64-bit words; circular descriptor lists |
| `Pending.dfy`, `QueueEngine.dfy` | `Pending`, `QueueEngine` | the I/O queue: descriptors, command ids, submission, completion, polling |
| `Transfers.dfy` | `Transfers` | what executing commands does to store and memory; chunks in any order equal one memcpy |
| `Chunking.dfy`, `Refinement.dfy`, `ReadWrite.dfy` | same names | cutting a request into commands, and the refinement of memcpy by the real path |
| `Steps.dfy`, `ResultZero.dfy` | same names | single steps of queue and controller; when result 0 of a read or write means success |
| `Limits.dfy` | `Limits` | page size and limits per command in their 16-bit fields |

**The allocator.**  Addresses are offsets in units of 512 bytes.  Every unit is labelled with the
block that contains it, so disjointness and coverage hold by construction of the labels and
`Consistent` says that lists, links and labels agree.  `Malloc` and `Free` follow the C code on an
array `next` (the first word of every unit) and an array of list heads; their contracts state the
new labels and lists and that no word of a live block is written.  Tiling and disjointness hold
for all threads, over any run of their calls; completeness and canonical form are for runs of one
thread, because a block freed by another thread goes to that thread's list.

**The queue engine.**  `NvmeQueue` holds the two rings, the PRP list area and an abstract
controller that follows NVM Express revision 1.2: it fetches in order (section 4.1), executes and
completes fetched commands in any order, and posts completions with an alternating phase tag
(section 4.6) without looking at how far the host has read.  It may run between any two host
accesses to shared memory (`DeviceRuns`).  A log records submissions, executions, completions and
how many were consumed; everything the engine promises is stated about that log.  `Queue` is the
driver's queue: descriptors on two circular lists, masks, counts, `descpend`.

**Reads and writes.**  Store and host memory are byte sequences.  An execution moves the bytes of
the pages the controller found in the PRP entries (section 4.3).  `ReadOrWrite` is the synchronous
read and write; its result is compared with the memcpy that the library itself uses in its
memory-backed build.

## What was found

- A call that finds the arena exhausted returns with the spin lock still taken
  (src/aurora_pci.c:326-335).  `Malloc` states it: the result is `Null` with `lock == 1`.  The only
  caller aborts (src/aurora_pci.c:420-426), so the state is terminal.
- The address check admits the byte just past the region (src/aurora_pci.c:444): `ResolveAddr`.
- PRP entries describe the buffer exactly if it starts on a page boundary or lies in one page
  (`MappedMeaning`, an equivalence).  Other buffers are described wrongly; a block of the allocator
  used from its start is never one of them (`BlockDescribable`).
- A command stays inside its own PRP list page exactly when its pages after the first fit one page
  (`WritesOwnPage`, an equivalence).  Reads and writes are limited accordingly, generic commands are
  not (src/unvme_core.c:817-841).
- A poll releases the descriptor whenever nothing is pending, also after an error, although the
  comment above it says otherwise (src/unvme_core.c:727-752).
- Result 0 of a synchronous read or write does not by itself mean success: errors of completions
  taken to make room are only logged (src/unvme_core.c:217-225).  `ResultZeroExact` gives the
  condition for every request, both ways: result 0 is reliable exactly if there is at most one
  command, or all completions taken to make room are posted before the call.  So it is whenever the
  commands fit the queue, and with nothing pending only then.  `ZeroCanHideError` is an input where
  it is not: 2 MB on a controller that takes two pages a command.
- Page size and the limits per command are 16-bit fields, too narrow for large pages: 16 KB pages
  with 512-byte blocks would need a limit of 65536 blocks (`LimitSuits` gives the exact condition).
  It never comes to that: every I/O queue has 256 entries (src/unvme_core.c:610) and asks for a list
  page for each (src/unvme_core.c:345), which the allocator serves only for pages up to 8 KB
  (`OpensWhen`); with larger ones opening aborts before the limit is computed.  On every device that
  opens the limit is usable (`OpenedSuits`).
- The PRP list area of the admin queue is allocated before the page shift is known
  (src/unvme_core.c:345, 555, 574), so it is a single block of 4096 bytes.  A generic command there
  stores past it unless two pages suffice, or it has id 0 and at most 513 pages (`AdminListArea`, an
  equivalence; `AdminListOverrun` has the smallest cases); the engine here is that of I/O queues.

## Assumptions

One thread at a time uses an I/O queue.  The controller completes every submitted command exactly
once, with the command's own id.  A free passes a live block with its own size.  The bytes a read or
write moves are stated for data buffers that are page aligned or lie in one page; the queue itself
takes any.  The limit of blocks per command suits the page size, as on every device that opens; the
transfer limit field is at most 30, since the shift it is computed with has no meaning beyond.  A
command that fails, and a generic command, moves no data.  The refinement excludes generic commands
in flight that have a read or write code or share the buffer; one that changes the blocks of the
request by other means is not modelled.  Integers are unbounded except where a width matters: the
lock word, the mask words and the page size and limit fields are modelled with their width.

## Model

| member | source | states |
|---|---|---|
| BuddyAllocator.GetIndexFromSize | src/aurora_pci.c:241-253 | the index is the level k with size 512 * 2^k up to 2 MB, and -1 for every other size |
| BuddyAllocator.LeftIsAligned | src/aurora_pci.c:255-258 | the remainder test of a block address holds exactly when the block is the left half of an aligned parent |
| BuddyAllocator.Allocator.constructor | src/aurora_pci.c:201-208 | before any thread has called: no rows given out, the lock free, and the arena set up by `BuddyInit` |
| BuddyAllocator.Allocator.BuddyInit | src/aurora_pci.c:260-287 | threads keep their rows with all lists emptied, and the arena is 2 MB chunks, all on the global list in address order; the invariant holds |
| BuddyAllocator.Allocator.GetFreelist | src/aurora_pci.c:289-307 | a thread keeps its row of lists; a new thread gets the next row with empty lists, a 17th aborts |
| BuddyAllocator.Allocator.TakeBatch | src/aurora_pci.c:324-357 | one global chunk is returned and at most 65 more become the caller's list, the rest stays global; with nothing there the lock stays taken and nothing changes |
| BuddyAllocator.Allocator.CutBatch | src/aurora_pci.c:331-355 | the global list is cut into the first chunk, a linked batch and the linked rest, and no other word is written |
| BuddyAllocator.Allocator.KeepRightHalf | src/aurora_pci.c:360-365 | the right half of a block just obtained becomes the only block of the level's list; no word of a live block is written |
| BuddyAllocator.Allocator.Malloc | src/aurora_pci.c:309-369 | the result is null exactly when no aligned region of the size is wholly usable by the thread; else lists and labels are as `Handed` says; the invariant holds and no word of a live block is written |
| BuddyAllocator.Allocator.Locate | src/aurora_pci.c:379-406 | the walk stops at the place of the block in address order, or at its buddy; no buddy was passed |
| BuddyAllocator.Allocator.Free | src/aurora_pci.c:371-407 | the arena is repainted with the block that results from merging with free buddies as long as there are any; other threads' lists, the global list and live words are untouched |
| BuddyAllocator.Allocator.AuroraMemAlloc | src/aurora_pci.c:409-432 | the size is the smallest power of two that fits, at least 4096; it aborts exactly for more than 2 MB, for a 17th thread, or when no aligned region of the size is usable; else the block handed out starts at a multiple of its size, no live word is written, and the bus address stored for it is what its buffer resolves to, byte for byte |
| BuddyAllocator.Allocator.AuroraMemFree | src/aurora_pci.c:434-437 | frees the block with its own size: merged for the caller, with the global list, other lists and live words untouched; it aborts exactly for a 17th thread, and then nothing changes |
| BuddyAllocator.Allocator.AllocateAndFree | src/aurora_pci.c:309-407 | a block is handed out exactly when the thread has a row and an aligned region is usable by it; freeing it again restores the thread's free memory, cut into the same blocks, and leaves all else unchanged |
| BuddyAllocator.Allocator.MallocInRun | src/aurora_pci.c:309-369 | every live block stays and the only new one is that returned; it aborts exactly for a thread without a row when all are given out; with one thread a legal size is refused exactly when no aligned region of that size is wholly free |
| BuddyAllocator.Allocator.Run | src/aurora_pci.c:309-407 | in any run of calls by any threads every call is carried out, up to a refusal, when the memory the thread could use is exhausted, or an abort of a thread without a row; with at most 16 threads none aborts; the blocks held follow from calls and replies, are live and never overlap, and nothing else becomes live; with one thread the lists are canonical |
| BuddyAllocator.ResolveAddr | src/aurora_pci.c:440-452 | an address resolves exactly if it lies in a unit of the arena or just past the last one, in none; the start of the arena resolves to its bus address, distances are kept, and nothing resolves outside the registered range |
| BuddyAllocator.BlockDescribable | src/aurora_pci.c:409-432 | a block of the allocator, used from its start, is page aligned or lies in one page, whatever the page size |
| BuddyAllocator.BlockFitsListPage | src/aurora_pci.c:409-432 | with pages of 4 KB or more the entries for any block of the allocator fit one list page |
| BuddyTiling.RegionCovered | src/aurora_pci.c:371-407 | with buddies always merged, a usable aligned region lies in one free block |
| BuddyTiling.CanonicalFree | src/aurora_pci.c:378-404 | below 2 MB a block is on a thread's list exactly when it is usable and its parent is not |
| BuddyTiling.SameUsableSameBlocks | src/aurora_pci.c:371-407 | which units are usable decides how they are cut into blocks, whatever the history |
| BuddyTiling.BlocksTile | src/aurora_pci.c:260-407 | blocks are aligned, pairwise disjoint and cover the arena |
| BuddyArena.PopConsistent | src/aurora_pci.c:317-321 | taking the first block of a list keeps tiling, lists and merging |
| BuddyArena.RefillConsistent | src/aurora_pci.c:331-355 | moving a batch of chunks to a thread's list loses and duplicates nothing |
| BuddyArena.SplitConsistent | src/aurora_pci.c:360-365 | splitting a live block and listing its right half keeps tiling, lists and merging |
| BuddyArena.MergeConsistent | src/aurora_pci.c:385-403 | merging a block with its buddy and unlisting the buddy keeps tiling and lists |
| BuddyArena.InsertConsistent | src/aurora_pci.c:393-395 | a sorted insert of a block without free buddy keeps tiling, lists and merging |
| BuddySpec.ExhaustedMeansNoRegion | src/aurora_pci.c:309-369 | all lists from a level up are empty exactly when no aligned region of the size is usable |
| BuddySpec.FreeUndoesAllocation | src/aurora_pci.c:309-407 | allocation followed by free of the block is the identity on usable units and on their cut into blocks |
| BuddySpec.CoalesceTakesOwn | src/aurora_pci.c:385-403 | everything a free merges was free memory of the calling thread |
| BuddySpec.OneThreadCanonical | src/aurora_pci.c:371-407 | in a one-thread run a block below 2 MB is listed exactly when it is wholly free and its parent is not |
| BuddySpec.LiveUnitsDecideFreeBlocks | src/aurora_pci.c:371-407 | in one-thread runs equal live units mean equal free blocks |
| BuddySpec.AllFreeAllWhole | src/aurora_pci.c:371-407 | freeing everything leaves only whole 2 MB chunks |
| BuddySpec.OneThreadComplete | src/aurora_pci.c:309-369 | in a one-thread run there is nothing to hand out exactly when no aligned region is wholly free |
| BuddySpec.LiveKeptByMalloc | src/aurora_pci.c:309-369 | an allocation returns memory that was free and keeps every live block |
| BuddySpec.LiveKeptByFree | src/aurora_pci.c:371-407 | a free keeps every other live block |
| RwLock.StepInv | src/unvme_lock.h:83-140 | every atomic step keeps the invariant on word, readers and owner |
| RwLock.Exclusion | src/unvme_lock.h:83-140 | in every reachable state a thread that holds the lock for writing is the only holder |
| RwLock.WordMeaning | src/unvme_lock.h:83-140 | the write bit is set exactly when a thread owns it, never two; the low bits count readers holding and backing out |
| RwLock.StepMeaning | src/unvme_lock.h:83-140 | every step in terms of the other threads: a reader gets the lock exactly if no thread owns the write bit; a writer gets it at once exactly if nobody owns the bit or is counted, becomes the owner in that very step if there are only readers, and has the lock as soon as nobody is counted; whatever it finds, its step leaves the word announcing a writer |
| RwLock.NoNewReader | src/unvme_lock.h:83-92 | while a thread owns the write bit, no step of any thread gives the lock to a new reader |
| RwLock.WriterPriority | src/unvme_lock.h:83-128 | over any run during which a thread owns the write bit, whoever holds the lock for reading has held it since the start of the run |
| RwLock.IdleWord | src/unvme_lock.h:83-140 | with all threads idle the word is 0 |
| RwLock.NoWedge | src/unvme_lock.h:83-140 | from every state where nobody holds and somebody wants the lock, steps of the contenders alone give it to one, as many as readers backing out and one more |
| NvmeQueues.NvmeQueue.constructor | src/unvme_nvme.c:614-637 | on a zeroed completion ring the rings start consistent |
| NvmeQueues.NvmeQueue.Fetch | src/unvme_nvme.c:167-184 | what the controller reads at its head is the oldest command not fetched yet, never an overwritten entry |
| NvmeQueues.NvmeQueue.Post | src/unvme_nvme.c:193-227 | posting without a full check never overwrites a completion the host still needs |
| NvmeQueues.NvmeQueue.DeviceRuns | src/unvme_nvme.c:193-227 | any number of controller steps in any order keeps the rings consistent and takes nothing back |
| NvmeQueues.NvmeQueue.WriteEntry | src/unvme_nvme.c:549-565 | filling the entry at the tail disturbs no unfetched command |
| NvmeQueues.NvmeQueue.SubmitCmd | src/unvme_nvme.c:167-184 | the entry at the tail becomes the newest submission; tail and doorbell wrap; no check is needed while at most size - 1 commands are outstanding with it |
| NvmeQueues.NvmeQueue.PhaseExact | src/unvme_nvme.c:196-198 | the phase test accepts the head entry exactly when a completion is posted and not consumed, for any number of wraps, and the entry is the oldest such |
| NvmeQueues.NvmeQueue.EntryStays | src/unvme_nvme.c:196-226 | a posted entry stays in place as long as fewer than size submissions followed it |
| NvmeQueues.NvmeQueue.CheckCompletion | src/unvme_nvme.c:193-227 | -1 exactly when nothing is posted and unconsumed; else id, status and result are those of the oldest unconsumed completion, although the id is read after the doorbell |
| NvmeQueues.NvmeQueue.IdleHeads | src/unvme_nvme.c:236-263 | with nothing outstanding submission tail and completion head agree, also after wraps |
| NvmeQueues.NvmeQueue.WaitCompletion | src/unvme_nvme.c:236-263 | on timeout -1, after at least one look, with nothing posted and nothing consumed; else the queue is idle, and the result is the status of the one outstanding command, or -1 if another id was waited for |
| NvmeQueues.NvmeQueue.AdminCmd | src/unvme_nvme.c:340-400 | a synchronous admin command returns its own status, and the result read at the index of its id is its own; -1 only on timeout, after a look since the submission, with its completion not posted; on error the result is -1 |
| Prp.MapPrps | src/unvme_core.c:272-299 | the entries are the buffer's page addresses in order, directly or in the list page of the id; no other list word is written |
| Prp.MappedMeaning | src/unvme_core.c:279-297 | a controller transfers exactly the buffer if and only if it is page aligned or lies in one page |
| Prp.WritesOwnPage | src/unvme_core.c:286-296 | mapping stays in the list page of its id if and only if the entries fit one page |
| Prp.WritesInArea | src/unvme_core.c:286-296 | mapping stays in a list area of a given size if and only if it stores nothing or its last entry does |
| Prp.AdminListArea | src/unvme_core.c:817-829 | in the 4096 bytes of the admin queue mapping stays inside if and only if two pages suffice, or the id is 0 and at most 512 pages follow the first, for every page size from 4 KB on |
| Prp.AdminListOverrun | src/unvme_core.c:817-829 | three pages with id 1 store past that area, and with pages above 4 KB so do 514 pages with id 0 |
| Prp.OtherPage | src/unvme_core.c:288-290 | list pages of different ids are disjoint |
| Bits.MaskSets | src/unvme_core.c:171-188 | setting and clearing the bit of an id adds and removes exactly that id, and the test finds it |
| DescLists.ListAdd | src/unvme_core.h:82-94 | adding at the head pointer appends to the circle |
| DescLists.ListDel | src/unvme_core.h:97-108 | deleting removes the node at any position, and the head moves on when it was there |
| QueueEngine.Queue.constructor | src/unvme_core.c:337-358 | the invariant holds with sixteen free descriptors, none in use, and no id in use |
| QueueEngine.Queue.DescGet | src/unvme_core.c:91-119 | a cleared descriptor, the first free one or a new one, is appended to the list in use; descpend is set to it exactly when that list was empty |
| QueueEngine.Queue.DescPut | src/unvme_core.c:125-141 | a descriptor without pending command moves from any position to the end of the free list; descpend moves to the next one exactly when it was there |
| QueueEngine.Queue.CidPartition | src/unvme_core.h:131-160 | the masks of the descriptors in use are disjoint, their union is the queue mask, counts are mask sizes, ids are below the queue size |
| QueueEngine.Queue.PendingPointer | src/unvme_core.c:169-196 | descpend is in the list in use and no descriptor before it has a pending command |
| QueueEngine.Queue.PendingIds | src/unvme_core.c:208-247 | the ids in the mask are exactly those of the pending commands, each used once |
| QueueEngine.Queue.PendingCount | src/unvme_core.c:213-225 | the count of ids is the number of pending commands and at most size - 1 |
| QueueEngine.Queue.FindDesc | src/unvme_core.c:169-180 | the search ends at the descriptor that owns a pending id; the not-found branch is unreachable |
| QueueEngine.Queue.AdvancePend | src/unvme_core.c:191-196 | descpend moves to the first descriptor with a pending command and the loop ends |
| QueueEngine.Queue.ClearCid | src/unvme_core.c:181-189 | the id leaves both masks and counts; a non-zero status is stored in the error field of its owner, which so is non-zero exactly if one of its completions failed |
| QueueEngine.Queue.CheckCompletion | src/unvme_core.c:150-201 | one completion is consumed and settled: its id is free and next to try, a non-zero status is in its owner's error field and in no other, descpend is the first descriptor with a pending command; or on timeout, after a look, nothing has changed and none is posted |
| QueueEngine.Queue.ScanCid | src/unvme_core.c:228-233 | the scan ends at the first free id, going round |
| QueueEngine.Queue.GetCid | src/unvme_core.c:208-247 | the id is free: no pending command has it; with size - 1 pending exactly one completion is taken and its id reused, else the first free id from the cursor on; it goes to the descriptor and to no other, and the cursor moves to the next id or round to 0; it gives up only with size - 1 pending, no completion posted and none taken |
| QueueEngine.Queue.MapBuf | src/unvme_core.c:272-299 | only the words of the mapping are stored; when the entries fit one page the list page of every pending command still describes its buffer |
| QueueEngine.Queue.Run | src/unvme_nvme.c:193-227 | the controller may run at any time without disturbing the queue |
| QueueEngine.Queue.SubmitIo | src/unvme_core.c:310-329 | one read or write of any buffer with the id obtained is the newest submission, with the entries stored for it, booked to the descriptor; it gives up only with the queue full, no completion posted, and nothing submitted or taken |
| QueueEngine.Queue.DoCmd | src/unvme_core.c:817-841 | one generic command is submitted through a new descriptor, which records the command and can be polled; it gives up only with the queue full, no completion posted, and nothing submitted or taken |
| QueueEngine.Queue.Drain | src/unvme_core.c:741-745 | consumes completions up to the first non-zero status, and returns it with the result of that completion; nothing if the descriptor has nothing pending, and if it has nothing pending in the end, the last one consumed is its own; 0 only then; -1 only if it has, after a look, and no completion is posted |
| QueueEngine.Queue.DoPoll | src/unvme_core.c:735-752 | the descriptor is released exactly when nothing of it is pending; result 0 means that it is, -1 that it is not and no completion is posted; no completion is consumed after the last of its own, none if nothing was pending; on release its error field is 0 exactly if all its commands succeeded |
| QueueEngine.Queue.Cmd | src/unvme.c:355-366 | one generic command is submitted and waited for; once its descriptor is released, status and result are those of the command itself, whatever else is pending; with nothing else pending it is released unless time is up |
| Pending.TracksConsume | src/unvme_core.c:169-189 | the completion consumed next belongs to a pending command, and its id is forgotten |
| Pending.TracksSubmit | src/unvme_core.c:235-244 | a submission with an id not in use keeps ids and pending commands one to one |
| Pending.AccountsConsume | src/unvme_core.c:181-187 | a completion settles the account of the descriptor that owns its id and changes no other |
| Pending.DescribedRun | src/unvme_core.c:272-299 | whatever the controller executes, in any order, moves exactly the bytes of the command's buffer, if that is page aligned or in one page |
| Pending.PreparedKept | src/unvme_core.c:286-296 | mapping for one id keeps the prepared list page of every other id |
| Transfers.AnyOrder | src/unvme_core.c:779-801 | parts of a transfer in any order among independent commands amount to those commands and the memcpy of the parts |
| Transfers.ChunksRefineMemcpy | src/unvme.c:170-189 | when the parts cover the transfer, store and memory are as after one memcpy |
| Transfers.Directions | src/unvme_nvme.h:65-66 | operation code 2 reads and 1 writes, byte for byte: exactly the bytes of the buffer, or of the blocks, become those of the other side |
| Chunking.ChunksTile | src/unvme_core.c:779-801 | the commands tile the blocks and the buffer in step, each of maxbpio blocks but the last, which has 1 to maxbpio |
| Chunking.ChunkOf | src/unvme_core.c:779-801 | every byte of a request belongs to one of its commands |
| Chunking.ChunkCount | src/unvme_core.c:779-801 | a request takes nlb / maxbpio commands, rounded up |
| ReadWrite.StaysDescribable | src/unvme_core.c:798-800 | what is left of a buffer after a command is page aligned or lies in one page again |
| ReadWrite.ChunksOk | src/unvme_core.c:779-801 | if entries can describe a buffer, every command of the request has a part of it that they describe, in one list page |
| ReadWrite.DoRw | src/unvme_core.c:765-804 | exactly the commands of the tiling are submitted, in order, all booked to one new descriptor that records the request; completions are taken only to make room; it gives up only if its commands and those pending do not fit the queue, after submitting the first ones, with the queue full and no completion posted |
| ReadWrite.ReadOrWrite | src/unvme.c:376-406 | the commands are submitted and completions taken only to make room, and then by the poll; the result is 0 or -1 if those the poll took were successes, else the status of the last one, its own if the descriptor is released; released without error, store and memory are as after the memcpy of src/unvme.c:170-189; if the commands fit the queue with those pending, it never gives up and result 0 means that they succeeded; -1 only if some have not completed and none is posted |
| ReadWrite.FirstRequest | src/unvme.c:376-406 | on a new queue a read or write whose commands fit is carried out; with result 0 store and memory are as after the memcpy, with -1 some command has not completed, any other result is the status of the last completion taken; 0 if all commands succeeded |
| ReadWrite.Read | src/unvme.c:376-385 | the request is made with the code for reads; with nothing pending before and commands that fit, result 0 means that the buffer holds the bytes of the blocks and nothing else has changed |
| ReadWrite.Write | src/unvme.c:396-406 | the request is made with the code for writes; with nothing pending before and commands that fit, result 0 means that the blocks hold the bytes of the buffer and nothing else has changed |
| ResultZero.ResultZeroExact | src/unvme_core.c:213-225 | for every state and request, result 0 means success if and only if there is at most one command or the completions taken to make room are all posted before the call |
| ResultZero.CanHideError | src/unvme_core.c:213-225 | for every other request steps of queue and controller, each a completion or a submission with its mapped entries, lead to result 0 although the first command failed |
| ResultZero.IdleCondition | src/unvme_core.c:213-225 | with nothing pending that condition is that the commands fit the queue |
| ResultZero.ZeroCanHideError | src/unvme_core.c:213-225 | such a run for 2 MB on a new queue of 256 entries, with 4 KB pages and blocks and two pages a command |
| Steps.QueueReady | src/unvme_core.c:208-247 | every valid queue is in one of the states these theorems are about |
| Steps.Serve | src/unvme_core.c:150-201 | from every such state a pending command can complete, moving the pages its entries describe, in one step to another such state |
| Steps.SubmitNext | src/unvme_core.c:310-329 | from every such state with room a command can be submitted with a free id and its mapped entries, in one step to another such state |
| Refinement.EachFits | src/unvme_core.c:765-804 | everything executed since a request was made, also of commands submitted after it, is a command of it, moving its bytes, or independent of it |
| Refinement.RequestRefinesMemcpy | src/unvme.c:170-189 | a request served with success equals one memcpy after the commands of others, pending before or submitted meanwhile, and just the memcpy if there were none |
| Refinement.TwoRequestsRefine | src/unvme.c:296-326 | two requests in flight together equal both memcpys after the commands of others |
| Limits.OpenedSuits | src/unvme_core.c:463-468 | on every device that opens the limit suits page size and list page, and a full command is maxppio whole pages |
| Limits.OpensWhen | src/unvme_core.c:345 | the allocator serves the list area of an I/O queue of 256 entries if and only if pages are at most 8 KB; else opening aborts |
| Limits.LimitSuits | src/unvme_core.c:463-468 | for any shifts the limit suits if and only if neither page size nor limit overflows its 16 bits; then a full command is maxppio whole pages, else the limit is 0 |
| Limits.LimitSuitsShifts | src/unvme_core.c:575-595 | the same condition on the shifts of page size, block size and transfer limit |
| Limits.PpioPower | src/unvme_core.c:575-595 | below 64 KB the limit of pages per command is a power of two and at most one list page of entries; from there on page size and limit are stored as 0 |
| Limits.FourKilobytePages | src/unvme_core.c:463-468 | 4 KB pages with blocks of 512 bytes or more always suit |
| Limits.SixteenKilobytePages | src/unvme_core.c:463-468 | the field could not hold the limit of 16 KB pages with 512-byte blocks; opening aborts before it is computed |
| Limits.SixtyFourKilobytePages | src/unvme_core.c:575-595 | with 64 KB pages the page size field is 0, and so would the limits be; opening aborts before the block limit is computed |

## Left out

- Malloc: a call is one step; two threads meet only in the section under the spin lock, and spinning for it is not modelled.
- Run: call by call; steps of two calls are not interleaved, since all but the critical section works on the caller's own lists and blocks.
- GetFreelist: thread identity is a parameter, and the rows are one array instead of a row allocated for each thread.
- BuddyInit: a repeated start after a 17th thread has asked for lists; that thread ends the process.
- Execute: a controller that chains PRP lists over several pages, and data moved by generic or failed commands.
- CheckCompletion: time is a nondeterministic number of polls, and the yields and clock reads are left out.
- WriteEntry: the fields of an entry are stored at once; the controller does not look at the entry before the doorbell.
- MapBuf: the list words are stored without the controller running in between, as no pending command refers to that page; the damage done by a list longer than a page is not followed further.
- SubmitIo: what a command moves whose buffer is neither page aligned nor in one page, which the entries describe wrongly (`MappedMeaning`); the branch for a buffer outside the region, which the address lookup ends by aborting; and the submission failure branch, which the ring never takes.
- DoCmd: takes a buffer whose list fits one page, since a longer one overruns the page (`WritesOwnPage`); every block of the allocator does (`BlockFitsListPage`); its failure branch never runs.
- DescGet: descriptor numbers, which only appear in log output, and the variable-size allocation of descriptors.
- DoPoll: a descriptor whose sentinel is damaged ends the process; the model requires a good one.
- Ending the process: an abort after a timeout is a result (`ok` false) with which all callers return at once.
- NoWedge: says that a schedule exists; fairness of the scheduler is not modelled.
- MaxPpio: a transfer limit field of 31 or more, for which the shift in the code is undefined.
- The memory-backed build itself, except as the specification of reads and writes.
- Controller registers, enabling and disabling, PCI and memory registration, logging.
- Opening and closing sessions, namespaces and queues, apart from the limits computed there.
- The admin queue as user of the engine: its list area is smaller than the engine needs (`AdminListArea`).
- The bump allocator variant, and the fio plugin, test programs and scripts.
- Sharing one queue between threads: the code takes no lock there.
