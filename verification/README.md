# A verified model of mymalloc

mymalloc is an allocator in the style of Hoard. It cuts aligned regions of 256 KiB, the
superblocks, into equal blocks. A superblock hands its blocks out first by a bump cursor and then
from a LIFO list threaded through the free blocks. Each heap keeps, for each of 23 size classes,
five circular lists of superblocks by how empty they are, and a list of empty superblocks to be
recycled. Threads share a fixed set of heaps and one global heap. When a heap becomes too empty,
a superblock moves to the global heap, from which other heaps adopt superblocks before they map
new ones.

## How the model is built

Two descriptions of the allocator are connected by proof.

* **The program's objects.** `Superblocks.Superblock` has the header fields and the buffer, with
  the free list stored in the buffer's words. `BinManagers.BinManager` has the list heads and the
  cached counter, and rewires `prev` and `next` in place. `Heaps.Heap` and `Heaps.Allocator` have
  the heaps, their counters, and the operations of `src/heap.c` with its scanning loops.
  `SizeTables.SizeTable` has the static table, its nested construction loops and the binary search.
* **The allocator as a value.** `Worlds.World` records every superblock, its owner, every list,
  the cached counters and the usage counters; `Worlds.HeapAlloc` and `Worlds.HeapFree` say what one
  malloc and one free do to it. A superblock's value is `SuperblockModel.Sb`.

The methods of the classes are proved to do to the objects what the functions do to the value
(`Coupled` relates the two). The properties are then proved about the value: one step at a time
in `Filing`, `Steps`, `Safety`, `Counters`, `Emptiness` and `Choices`, and over whole runs, by any number of
heaps and in any order, in `Runs` and `Demand`. `Locks` is a separate model, step by step, of the locking.

Addresses are natural numbers, 0 is NULL, and heap 0 is the global heap. What `mmap` returns is a
parameter (`raw`): no memory, or 512 KiB that overlap no superblock. The header takes 128 bytes,
as on 64-bit Linux with a 40-byte mutex. The fractions 1.5, 0.8 and 3/4 are exact: `3 * sz / 2`,
`4 * half / 5`, `3 * a / 4`.

## Where the program departs from its evident intent

Three departures are modelled as the code has them, each with a switch in `Worlds.Repairs`.
`Worlds.AS_WRITTEN` has all three off, and every theorem says which switches it needs.

| switch | the code | the intent |
|---|---|---|
| `nextFirst` | `bin_alloc` resets a recycled superblock, which nulls `next` (src/superblock.c:65), before it reads `next` as the new list head (src/heap.c:162-164); the rest of the list is dropped | read `next` first |
| `resetAdopted` | a superblock from the global recycling list keeps its old block size (src/heap.c:74-80, src/heap.c:171-178) but is filed under the requested class | reset it |
| `exactUsage` | a transfer takes 256 KiB off `alloced` but nothing off `in_use` (src/heap.c:267-273), and a failed request is charged (src/heap.c:241) | take the used bytes off; do not charge |

For the first two the exact damage is proved. A step keeps the invariant if and only if it does
not adopt a superblock of another block size (`Runs.StepGood`; over runs `Runs.RunGoodExactly`).
A malloc hands out a block too small for its request if and only if it adopts, without a reset, a
superblock whose block size is below the request (`Runs.MallocTracksExactly`). The superblocks in
no list are exactly those dropped (`Runs.LostIsDropped`). For the third, `in_use` exceeds the used
bytes by exactly what failed requests and transfers have added (`Runs.RunSlack`). `Witnesses` and
`LongRuns` give legal runs in which each departure does harm.

Two findings go beyond the three departures. Both concern the emptiness invariant, and for both
the exact condition is proved. A malloc that does not add a superblock to its heap keeps the
invariant. One that adds a superblock keeps it if and only if, before the call, at most 3S and the
charge of `alloced` are unused, or three quarters of the grown heap will be in use
(`Emptiness.MallocKeepsFull`). This holds of every heap that meets the invariant before the call,
for every mix of size classes, and whatever is lost, misfiled or repaired. From a well-filed state
a free keeps the invariant always as written, and under a like condition with exact usage
(`Emptiness.FreeKeepsFull`). Over a run without unreset adoptions of another block size, the
invariant holds at every boundary if and only if every call meets its condition
(`Runs.EmptinessExactly`). Runs of one size class that drop nothing always meet it
(`Runs.EmptinessInvariant`). Legal runs that do not are:

* five requests of five different classes, whatever is repaired (`Witnesses.MixedClassesTooEmpty`);
* a run of one class in which `next` is read too late (`LongRuns.LossMakesTooEmpty`);
* a run of one class, with nothing lost, under exact usage (`LongRuns.ExactUsageTooEmpty`): the
  threshold test relies on `in_use` not going down when a superblock is transferred.

## Model

| member | source | states |
|---|---|---|
| Runs.BlocksAreSafe | src/heap.c:143-206 | In every run in which adopted superblocks are reset, or none of another block size is adopted: each pointer a client holds is 16-aligned, its block is at least as large as was asked and lies inside one superblock's buffer, and the whole block overlaps no other held block of any heap. |
| Runs.NeverHandedOutTwice | src/heap.c:234-245 | After every such run, no malloc returns a pointer that a client still holds. |
| Runs.StepGood | src/heap.c:234-278 | From a good state, a malloc or free leads to a good state (filing, counters, and held pointers exactly the live blocks) if and only if it does not adopt a recycled superblock of another block size unreset. |
| Runs.RunGoodExactly | src/heap.c:234-278 | Over whole runs: the invariant holds at every operation boundary if and only if the run never makes such an adoption. |
| Runs.MallocTracksExactly | src/heap.c:171-205 | From a good state: after a malloc clients hold exactly the live blocks, each at least as large as was asked, if and only if the request is not served from an unreset adopted superblock whose block size is less than the request. |
| Runs.RunGood | src/heap.c:234-278 | Whole runs without such an adoption keep the invariant. |
| Runs.ExactlyOnePlace | src/heap.c:49-232 | With `next` read first and adopted superblocks reset, after any run every superblock ever mapped is in exactly one list, once: the bin its owner, block size and fullness determine, or, exactly when it has no live block, its owner's recycling list; and every cached counter is the summed length of bins 1 to 4. |
| Runs.LostIsDropped | src/heap.c:158-167 | For every run, as written too, that adopts no superblock of another block size: the superblocks in no list are exactly those that bin_alloc dropped by reading `next` after the reset. |
| Runs.NextFirstDropsNone | src/heap.c:158-167 | Once `next` is read first, no run drops a superblock. |
| Runs.RunSlack | src/heap.c:19-37 | Over any run that adopts no superblock of another block size, `in_use` exceeds the bytes of the used blocks by exactly the accumulated drift of failed requests and of transfers of partly used superblocks; the drift is never negative, and 0 with exact usage. |
| Runs.CountersExact | src/heap.c:171-190 | After any run with reset and exact usage, `alloced` is 256 KiB times the superblocks owned, and `in_use` equals the bytes of the used blocks. |
| Runs.SuperblocksConserved | src/heap.c:181-190 | In a run in which adopted superblocks are reset, or none of another block size is adopted, as many superblocks were mapped as all heaps, the global heap among them, own at its end. |
| Runs.EmptinessInvariant | src/heap.c:280-286 | In every run of one size class on any number of heaps that drops no superblock, every thread heap satisfies `in_use + 4S >= alloced` or `in_use >= 3/4 alloced` at every operation boundary. |
| Runs.EmptinessExactly | src/heap.c:143-286 | For any heaps and any mix of size classes: a run, with adopted superblocks reset or none of another block size adopted, keeps the emptiness invariant at every operation boundary if and only if every call meets the condition on the state before it (`GrowsWell` for malloc, `SettlesWell` for free). |
| Runs.TransferablePresent | src/heap.c:113-124 | In every state between the operations of a run with both filing repairs, if a thread heap is empty enough and has nothing to recycle, the search would find a superblock, in the emptiest class of all the heap's superblocks. |
| Emptiness.SearchInFree | src/heap.c:86-104 | At the point in free where the search is made, from any well-filed state and under any repairs: if the heap has nothing to recycle, the search finds a superblock with a free block, in the emptiest class of all that the heap has in lists; the failing assertion at its end is unreachable from there. |
| Runs.FreeFindsTransfer | src/heap.c:106-124 | After any run in which adopted superblocks are reset, or none of another block size is adopted: for every held pointer, free finds a superblock to transfer at the point where it searches. |
| Steps.MallocFiles | src/heap.c:143-206 | One malloc keeps every superblock where it belongs if and only if it does not file an adopted superblock of another block size; the newly lost superblocks are exactly those dropped. |
| Steps.FreeFiles | src/heap.c:208-278 | One free keeps every superblock where it belongs and loses none, as written. |
| Steps.CounterGuidesScan | src/heap.c:57-72 | Where superblocks are filed rightly, the cached counter is positive exactly when the scan of bins 1 to 4 finds a superblock. |
| Worlds.FullestFrom | src/heap.c:147-155 | The class found has a superblock, and all fuller non-full classes are empty; none is found only when all are. |
| Worlds.EmptiestUpTo | src/heap.c:86-104 | The class found is the emptiest that has a superblock in any bin, and the bin is the first there; none is found only when all bins are empty. |
| Steps.InBinFacts | src/heap.c:192-203 | A superblock in bin (b, e) has block size class b and emptiness class e, is not empty, and has a free block exactly when e > 0; so the class read before a block moves is the list to delete from. |
| Steps.TransferredFacts | src/heap.c:106-124 | The superblock that a transfer takes belongs to the heap, is in the one list it belongs in, and has a free block. |
| Safety.LiveBlockPlaced | src/heap.c:208-210 | A live block is aligned and lies inside the superblock that clearing its address's low bits yields. |
| Safety.LiveBlocksDisjoint | src/superblock.c:71-90 | Two live blocks, of the same superblock or of different ones, do not overlap. |
| Safety.MallocLive | src/heap.c:234-245 | Malloc fails exactly when no list can serve and nothing is mapped; otherwise its result was not live and is now, of the class's size unless misfiled; every other block stays live or free and keeps its size. |
| Safety.FreeLive | src/heap.c:252-278 | Free ends the life of exactly its block; every other block is as before. |
| Counters.MallocCounters | src/heap.c:171-190 | A malloc that does not adopt a superblock of another block size unreset keeps `alloced` equal to 256 KiB times the superblocks owned, and lets `in_use` gain on the used bytes by exactly the class of a failed request. |
| Counters.FreeCounters | src/heap.c:264-276 | Free keeps `alloced` exact and lets `in_use` gain on the used bytes by exactly those of the superblock transferred. |
| Counters.FreeDoesNotUnderflow | src/heap.c:267-273 | What free takes off `in_use` and `alloced` is there: the unsigned counters do not wrap below zero. |
| Emptiness.TransferableExists | src/heap.c:264-274 | Pigeonhole: a heap that is empty enough, recycles nothing and has lost nothing has a superblock with a free block, and the search returns one of its emptiest class. |
| Emptiness.FullHeapUsage | src/superblock.c:112-116 | A heap whose superblocks are all full uses at least 230208 bytes of each. |
| Emptiness.OneTransferIsEnough | src/heap.c:264-286 | On the counters: if a heap was not too empty, freeing at most half a superblock and transferring one superblock leaves it not too empty. |
| Emptiness.FreeKeepsFull | src/heap.c:252-286 | From a well-filed state: a heap that was not too empty is not too empty after a free of one of its blocks if and only if the free settles well: always as written; with exact usage, a condition on the counters before the call and the used bytes of the superblock to be transferred. Other heaps stay as they are. |
| Emptiness.MallocKeepsFull | src/heap.c:143-245 | In every state, well filed or not, and for every mix of classes: a heap that was not too empty is not too empty after its malloc if and only if no superblock was added, or at most 3S and the charge were unused before, or three quarters of the grown heap will be in use. Other heaps stay as they are. |
| Emptiness.OneClassGrowsWell | src/heap.c:147-190 | With one size class and nothing lost, every malloc meets that condition. |
| Emptiness.FreeNotTooEmpty | src/heap.c:252-278 | As written and for any mix of classes, free leaves no thread heap too empty that was not. |
| Emptiness.GrowsWhenFull | src/heap.c:147-190 | With one size class and nothing lost, when malloc must adopt or map, all superblocks of the heap are full. |
| Emptiness.MapsWhenFull | src/heap.c:169-190 | With one size class and nothing lost, malloc turns to mmap only when all superblocks of its heap and of the global heap are full. |
| Demand.MappedOnDemand | src/heap.c:143-206 | In every run of one size class on one thread heap, with `next` read first, the superblocks mapped are at most those that the peak number of held blocks fills, rounded up. |
| Emptiness.GrowthBounds | src/heap.c:280-286 | A heap of n superblocks that are all full, grown by one, is not too empty, whatever n is. |
| Emptiness.MallocNotTooEmpty | src/heap.c:143-206 | With one size class and nothing lost, malloc leaves no thread heap too empty that was not. |
| Witnesses.NextIsLost | src/heap.c:158-167 | Unless `next` is read first: a run of five calls after which a superblock is in no list. |
| Witnesses.TooSmallABlock | src/heap.c:74-80 | Unless adopted superblocks are reset: a run in which a client that asked for 129472 bytes holds a 16-byte block. |
| Witnesses.HeldBlocksOverlap | src/heap.c:74-80 | Unless adopted superblocks are reset: a run after which two clients hold pointers whose requested bytes overlap. |
| Witnesses.FailureIsCharged | src/heap.c:239-244 | Unless usage is exact: one failed request leaves `in_use` at 16 with no block in use. |
| Witnesses.AsWritten | src/heap.c:143-245 | As written, with no repair: one run loses a superblock, one hands out a block smaller than was asked, and one leaves `in_use` above the used bytes. |
| Witnesses.MixedClassesTooEmpty | src/heap.c:280-286 | Whatever is repaired: five requests of five classes make a heap too empty. |
| LongRuns.LossMakesTooEmpty | src/heap.c:158-190 | Unless `next` is read first: a legal run of one size class from the start, without adoptions, that leaves a heap too empty. |
| LongRuns.ExactUsageTooEmpty | src/heap.c:267-273 | With exact usage: a legal run of one size class from the start, with nothing lost, that leaves a heap too empty. |
| SuperblockModel.RunPartitions | src/superblock.c:60-105 | Over any sequence of allocations and frees of live blocks on one superblock: the free list has no duplicates and stays below the cursor, live and free blocks add up to all blocks, and the live ones number allocations minus frees. |
| SuperblockModel.AllocTakesOne | src/superblock.c:71-90 | Allocation returns a slot that was free and makes exactly it live. |
| SuperblockModel.CarvesFirst | src/superblock.c:75-80 | While blocks are left that were never handed out, the next of them in address order goes first, whatever is on the free list. |
| SuperblockModel.LastFreedFirst | src/superblock.c:81-101 | When all blocks have been handed out once, the block freed last goes first, and handing it out undoes the free. |
| Layout.BlocksFill | src/superblock.c:63-63 | A superblock is cut into as many blocks as fit, no fewer. |
| SuperblockModel.ReleaseReturnsOne | src/superblock.c:92-105 | Freeing a live slot makes exactly it free. |
| SuperblockModel.LiveCount | src/superblock.c:107-116 | The live slots number the blocks the free counter does not count; empty means none is live. |
| SuperblockModel.EidxRange | src/binmanager.c:128-138 | The emptiness class is between 0 and 4, and 0 exactly when the superblock is full. |
| SuperblockModel.EidxQuarters | src/binmanager.c:128-138 | Class e means that at least 4 - e quarters of the blocks, and less than 5 - e, are in use. |
| SuperblockModel.UsedBytesBounds | src/superblock.c:112-116 | The used bytes are between 0 and the buffer size, so they fit the `int` they are returned in; 0 when empty, all blocks' bytes when full. |
| Superblocks.Superblock.Reset | src/superblock.c:60-69 | A superblock reset for a class is fresh and its links are null. |
| Superblocks.Superblock.Alloc | src/superblock.c:71-90 | In place: the address returned is the cursor while blocks are left to reap, and the head of the free list otherwise; the fields and the list in the buffer then stand for the model's next value; the buffer is not written. |
| Superblocks.Superblock.Release | src/superblock.c:92-105 | In place: a misaligned pointer changes nothing; a live block's first word is linked in front of the free list, and no other word of the buffer changes. |
| Superblocks.Superblock.ClientWrite | src/superblock.c:92-105 | Any word a client writes into a block it holds can be read back, changes no other word, and leaves the free list in the buffer as it is. |
| Superblocks.Superblock.UsedBytes | src/superblock.c:112-116 | The method computes the bytes of the live blocks. |
| Superblocks.Superblock.GetEidx | src/binmanager.c:128-138 | The method computes the emptiness class and stays below 5. |
| BinManagers.RingInverse | src/binmanager.c:74-126 | In a bin `prev` undoes `next` and `next` undoes `prev`. |
| BinManagers.RingCycles | src/binmanager.c:74-126 | From any member, the `next` links lead through those after it in order and back to the list head. |
| BinManagers.BinManager.PushIntoBin | src/binmanager.c:74-96 | The bin becomes the superblock followed by what it held; all bins are rings still, the other bins hold what they held, and the counter agrees. |
| BinManagers.BinManager.DeleteFromBin | src/binmanager.c:98-126 | Exactly the given member leaves the bin, from any position; all bins are rings still, the other bins hold what they held, and the counter agrees. |
| BinManagers.WithoutAt | src/binmanager.c:98-120 | What deletion leaves is the part before and the part after the member, in order. |
| SizeTables.TableShape | src/binmanager.c:16-48 | For any half superblock: entries increase strictly from the first and do not exceed it, all but an appended last are multiples of 16, and the last is at least four fifths of it, rounded down. |
| SizeTables.TableIs | src/binmanager.c:16-48 | For any half superblock, entry by entry: 16 first; each next entry is the one before and half again in whole units of 16 (32 after 16), up to the first whose follower exceeds the half superblock; the half superblock is appended exactly when that entry is below four fifths of it. |
| SizeTables.TwoStepsDouble | src/binmanager.c:21-36 | Two steps of the construction at least double the size. |
| SizeTables.TableFits | src/binmanager.c:11-12 | For any half superblock from 16 to 2^63 the table has fewer than 128 entries. |
| SizeTables.SizeTable.InitSizeTable | src/binmanager.c:16-52 | The nested loops terminate, stay inside the array, and fill it with the table. |
| SizeTables.LookUp | src/binmanager.c:58-72 | The index is the least whose class holds the request. |
| SizeTables.SizeTable.Size2Idx | src/binmanager.c:58-72 | The binary search returns that least index for any request. |
| SizeTables.LookUpOfClass | src/heap.c:257-258 | Looking a class up yields its own index: free recomputes the bin that malloc used. |
| SizeTables.RequestWaste | src/heap.c:235-236 | For any half superblock, the class found is less than 3/2 of the request or less than 16 bytes larger, the appended class included. |
| SizeTables.ConcreteTable | src/binmanager.c:16-52 | For this superblock size the construction yields the 23 classes from 16 to 129472. |
| SizeTables.BinHoldsRequest | src/heap.c:235-236 | A request up to the largest class gets a bin whose class holds it, and no smaller class does. |
| SizeTables.FullPayload | src/superblock.c:63-63 | In every class the blocks fill at least 230208 bytes, which is 7/8 of a superblock. |
| Mapping.CarveOut | src/superblock.c:15-33 | What is kept and what is unmapped tile the mapping exactly, and the superblock kept is the aligned one. |
| Mapping.AlignUpUnique | src/superblock.c:15-26 | There is only one aligned address at which the superblock can start. |
| Layout.MaskClearsRemainder | src/heap.c:254-254 | On 64-bit words the masking is subtraction of the remainder. |
| Layout.MaskRecoversSuperblock | src/heap.c:210-210 | Clearing the low 18 bits of any address in any block yields its superblock. |
| Layout.SlotInBuffer | src/superblock.c:68-79 | Every block lies inside the buffer. |
| Layout.SlotAtBlockAddr | src/superblock.c:76-78 | The slot number can be read back from a block's address. |
| Heaps.Allocator.constructor | src/heap.c:5-10 | Empty heaps over a filled table stand for the initial value. |
| Heaps.Allocator.HeapAllocate | src/heap.c:234-245 | The imperative heap_alloc refines the specification; unless it misfiles it keeps filing and counters, and its result was not live before, is live now, and holds the request. No word of any block that clients hold changes. |
| Heaps.Allocator.BinAllocate | src/heap.c:143-206 | The imperative bin_alloc, with its scan, recycling, adoption and mapping, refines the specification. |
| Heaps.Allocator.FindNonfull | src/heap.c:147-155 | The loop finds the fullest class that is not full: the classes before it are bare. |
| Heaps.Allocator.GetSbFromGlobal | src/heap.c:49-84 | Takes the fullest non-full superblock of the class out of the global heap, or else, when the counter is not positive, the head of its recycling list, or nothing. |
| Heaps.Allocator.Recycle | src/heap.c:158-167 | Takes the head of the recycling list; unless `next` is read first, the list is empty afterwards. |
| Heaps.Allocator.ServeFromBin | src/heap.c:192-198 | Serves from a binned superblock and moves it from the class read before to the class read after. |
| Heaps.Allocator.HeapRelease | src/heap.c:252-278 | The imperative heap_free refines the specification, keeps filing and counters, and ends the life of the block. Of all buffers only the first word of that block may change: every word of every other held block stays. |
| Heaps.Allocator.BinRelease | src/heap.c:208-232 | The imperative bin_free moves the superblock from its bin to the recycling list or to the bin for its new fullness, and writes no buffer but the first word of the block. |
| Heaps.Allocator.FindEmptiestSb | src/heap.c:86-104 | The nested loops find the emptiest class that any bin holds and the first bin there: all bins are bare of emptier classes, and the bins before it of this one. |
| Choices.MallocFromBin | src/heap.c:147-155 | While the class's bin has a superblock in classes 1 to 4, malloc serves from the head of the first such class, and returns that superblock's next block. |
| Choices.MallocRecycles | src/heap.c:157-167 | Or else from the head of the heap's recycling list, cut afresh: its first block. |
| Choices.MallocAdopts | src/heap.c:169-179 | Or else from the head of the first class 1 to 4 in the global heap's bin, as that superblock is; the heap owns it then. |
| Choices.MallocAdoptsRecycled | src/heap.c:74-80 | Or else from the head of the global recycling list, as it is unless the reset is repaired. |
| Choices.MallocMapsOrFails | src/heap.c:181-190 | Or else from a new mapping; and it fails exactly then when there is no memory. |
| Choices.MallocTakesFullest | src/heap.c:147-155 | In blocks in use: no superblock of the heap and class that is in a list and neither full nor empty has a quarter of its blocks more in use than the one that serves. |
| Choices.FreeMoves | src/heap.c:208-232 | Free takes the superblock out of the bin and class it is in, and puts it at the head of its owner's recycling list when the block was the only one in use, and otherwise at the head of its new class; all other lists stay. |
| Choices.FreedIsNext | src/superblock.c:81-101 | When all blocks of its superblock were handed out once, a freed block is the one the superblock hands out next. |
| Choices.FreeKeepsOwners | src/heap.c:264-274 | A free that leaves the heap full enough, or is of a block of the global heap, moves no superblock to the global heap; the latter changes no counter. |
| Choices.FreeHandsRecycled | src/heap.c:113-118 | A free that leaves the heap empty enough hands the head of its recycling list, if it has one, to the head of the global one; owners and lists otherwise stay. |
| Choices.FreeHandsEmptiest | src/heap.c:119-137 | Or else the head of the emptiest class that any bin holds, in the first bin that holds it, to the head of the same class and bin of the global heap. |
| Choices.SearchTakesEmptiest | src/heap.c:86-104 | In blocks in use: the superblock found is, to a quarter, as empty as any that the heap has in a list. |
| Heaps.Allocator.MoveOut | src/heap.c:106-140 | The superblock that moves to the global heap is the head of the recycling list, or else the emptiest, and lands in the same kind of list there. |
| Heaps.Allocator.TransferSbToGlobal | src/heap.c:106-140 | The imperative transfer refines the specification. |
| Heaps.Allocator.IsEmptyEnough | src/heap.c:280-286 | The test read from the heap's counters is the one on the value's counters. |
| Heaps.Allocator.ClientWrite | src/superblock.c:92-105 | A word that a client writes into a block it holds can be read back; no other word changes, nor anything the allocator stands for. |
| Locks.AcquiresAscend | src/heap.c:252-278 | A thread acquires only locks above all it holds, in the order superblock, thread heap, global heap. |
| Locks.MutualExclusion | src/heap.c:39-47 | In any run at most one thread is at a point that holds a given lock. |
| Locks.DeadlockFree | src/heap.c:239-278 | In every state of every run of any number of threads, over unboundedly many superblocks and heaps, with an unfinished operation, a thread with an unfinished operation can step. |
| Locks.MallocLocks | src/heap.c:49-83 | A malloc acquires and releases the heap's lock, and inside it may acquire and release the global one: it can perform exactly these two sequences. |
| Locks.FreeLocks | src/heap.c:252-278 | A free acquires the superblock's lock, then that of the owner it reads, and inside, if that is a thread heap, may acquire the global one; it releases them in reverse: it can perform exactly these sequences. |
| Locks.PointsReached | src/heap.c:252-278 | Runs of one thread reach every point of both operations, for every superblock and heap, and no others: the nesting of all three locks among them. |
| Locks.StepsAhead | src/heap.c:39-47 | A thread that waits for a lock that no thread holds can step. |
| Locks.FinishingIsBounded | src/heap.c:239-278 | Once no operation is begun any more, the steps left are bounded whatever the schedule. |
| Locks.StuckMeansDone | src/heap.c:239-278 | When no unfinished operation can step, none is unfinished. |

## Left out

- Interleaving of heap data: malloc and free are single steps in every property of the state; only the lock model interleaves. heap_free reads the owner (src/heap.c:260) before it locks that heap (src/heap.c:264), while other paths change the owner (src/heap.c:128, src/heap.c:175) without the superblock lock, so no claim is made that the operations are linearizable. In the lock model the owner that free reads is therefore arbitrary.
- The kernel: mmap returns a fresh range or fails, munmap succeeds; mutexes are exclusive and not re-entrant.
- src/largealloc.c and the dispatch between large and small blocks in src/mymalloc.c: requests are from 1 byte to the largest class, and pointers are live small blocks. Invalid, misaligned and double frees are left out, except that one superblock ignores misaligned pointers.
- realloc and calloc, which wrap malloc and free.
- The unsynchronised first use of the size table (src/mymalloc.c:11-12): the table is filled before the first operation.
- get_thread_heap: the heap of a request is any heap.
- The statistics max_in_use and max_alloced, which nothing reads.
- Debug output: ASSERT and DPRINT only print. The ASSERT at src/heap.c:76, that the head of the global recycling list has a successor, is false of a list of one and is not modelled.
- Upper wrap-around of the counters: they are unbounded above. That they do not wrap below zero is proved.
- Rounding of doubles: the products with 1.5, 0.8 and 3/4 are exact. For sizes of 2^53 and more a double rounds, so there TableShape and TableFits speak of the exact products.
- The width of num_nonfull_superblocks and of the block counts: natural numbers; the counts are at most 16376.
- The buffer is an array of 8-byte words; bytes within a word are not distinguished. Heap pointers in headers are heap numbers, and the table of what is mapped where (`registry`) stands for the address space.
- Runs.EmptinessInvariant: assumes one size class, no exact usage, and that no superblock is dropped. Without any one of these it is false of some legal run (`Witnesses.MixedClassesTooEmpty`, `LongRuns.ExactUsageTooEmpty`, `LongRuns.LossMakesTooEmpty`); `Runs.EmptinessExactly` says of which.
- What the program does after it has filed an adopted superblock under a class that is not its own: `Runs.StepGood` says exactly when that happens. The requested bytes of blocks served from the bin it then sits in may overlap (`Witnesses.HeldBlocksOverlap`). A free of such a block deletes the superblock from the bin of its old class, in which it is not, so lists and counters are no longer what the model says they are.
- Heaps.Allocator.HeapAllocate: requires a well-filed state, so states after such an adoption are not followed.
- Heaps.Allocator.BinAllocate: requires a well-filed state, so states after such an adoption are not followed.
- Heaps.Allocator.GetSbFromGlobal: requires a well-filed state, so states after such an adoption are not followed.
- Heaps.Allocator.HeapRelease: requires a well-filed state and sound counters, so states after such an adoption are not followed.
- Heaps.Allocator.BinRelease: requires a well-filed state, so states after such an adoption are not followed.
- Heaps.Allocator.MoveOut: requires a well-filed state, so states after such an adoption are not followed.
- Heaps.Allocator.TransferSbToGlobal: requires a well-filed state, so states after such an adoption are not followed.
