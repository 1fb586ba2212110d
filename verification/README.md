# Darktable's shared cache and algorithmic cores, in Dafny

The project models those parts of darktable whose correctness rests on an invariant or on an argument across
several functions, and proves what each of them is for.

* **The concurrent cache** (`src/common/cache.c`). One array of buckets carries a hash index whose chains are 16 bit
  relative deltas, an LRU list threaded through the same buckets, costs counted against a quota, and a reader/writer
  lock per bucket. `CacheModel` and `CacheEffects` describe the buckets as a value and every locked section as one
  atomic effect on it; `Cache` is the program, as a class over the bucket array, each method proved to be its effect
  and to act on the map and the list that the buckets stand for; `CacheSequential` states what whole operations mean
  to a single caller, and `CacheAlone` what whole runs of one caller can come to; `CacheProtocol` lets any number of
  threads run that program, one atomic section at a time, with `CacheSafety` and `CacheRuns` proving what every
  interleaving keeps, `CacheSections` what each section does and answers among other threads, `CacheWalk` what the
  walk of `dt_cache_gc` has met there when it answers, and `CacheRefinement` that a thread which goes on alone does
  what `Cache` promises, call by call; `CacheSegments` lets readers of different segments get between each other's
  search for a free bucket and the filling of it; `CacheScan` is the lock-free lookup, one memory read at a time.
  `CacheGeometry` has the sizes, `CacheCost` and `Sums` the accounting.
* **The mipmap protocol** on top of it (`Mipmap`): the generate flag and the write lock make exactly one client
  generate each buffer.
* **The slot stacks of the job scheduler** (`JobSlots`) and **the OpenCL event list** (`OpenclEvents`).
* **Algorithmic cores**: the SFMT generator (`Sfmt`), tridiagonal systems and cubic splines (`Spline`), the run length
  codec (`Rle`), the thumbnail block codec (`ImageCompression`), HSL conversion (`Hsl`), pixel orientation
  (`Orientation`). `Arithmetic` and `Sequences` hold shared lemmas.

A class keeps the fields of the source's structure, and its methods keep the source's loops and branches. Ghost fields
(`chains`, `order`, `stored`, ...) name the abstract value. Every method is proved against a function on values, and
the properties are lemmas about these functions and about runs of them.

Verify with `dafny verify dfyconfig.toml`.

Findings about the code; for each there is an input that shows it and a lemma with the exact condition:

* `dt_cache_gc` does not empty the cache down to the fill ratio, as the comment at `src/common/cache.h:95-97` promises.
  After one removal its cursor is stale, so one call, running alone, evicts at most one entry. `GcMissesRatio`
  is a run of one caller after which that is not enough, `GcMeetsRatio` says exactly when it is, and `RepeatedGcEnds`
  what calling again and again comes to.
* In a table of 2^15 buckets `dt_cache_read_get` can return NULL although a bucket is free: the search stops
  SHRT_MAX - 1 buckets away from home (`NoRoomInRun`; `NoRoomMeansFull` says for which sizes NULL means full).
* The lock of one segment does not protect the buckets that `dt_cache_read_get` takes from other segments: two readers
  that hold different segment locks can find the same free bucket, and the second overwrites the entry that the first
  has been handed (`FilledTwice`). With two segments or more this is so for all but extreme geometries:
  `SegmentLocksProtectIff` says exactly when the locks suffice, and `SplitRunsAreWhole` that the atomic sections of
  `CacheProtocol` then lose nothing.
* `dt_image_compress` keeps the mantissa of a luma whose exponent it clamps, so that the float just below 2^-15 gets a
  greater code than 2^-15 itself (`DarkerHasGreaterCode`); `LumaCodesInOrder` says exactly when codes are in the order
  of the luma.
* `dt_imageio_flip_buffers` and `dt_imageio_write_pos` read the orientation bits 1 and 2 in opposite roles unless bit 4
  is set (`WalkAgrees`).
* `dt_opencl_events_reset`, called directly, passes a zero event to `clReleaseEvent` when nobody has consumed the last
  slot (`ZeroIsReleasedInRun`); in a run this happens exactly by such a reset (`ZeroIsReleasedIff`).
* A flush that is to reset the list leaves the count of lost events standing when it takes back the only slot, and a
  reset of an empty list never clears it (`LostCountSurvives`; `FlushClearsLost` and `ResetClearsLost` say exactly when
  the count is cleared).

## Model

| member | source | states |
|---|---|---|
| CacheGeometry.NearestPowerOfTwo | src/common/cache.c:88-94 | the result is a power of two, not below the argument, and the least such |
| CacheGeometry.SegmentShift | src/common/cache.c:339-343 | the segment bits and the shift together make up exactly the bucket bits |
| CacheModel.SegmentOfHome | src/common/cache.c:405-411 | the segment that an operation locks is determined by the home bucket it works on |
| CacheGeometry.DeltasFitIff | src/common/cache.c:712-734 | any two buckets that the search for one home can pick are linked by an exact int16 delta that is not the NULL marker, if and only if the table has at most 2^15 buckets |
| CacheEffects.EachOnItsChainOnly | src/common/cache.c:242-268 | an occupied bucket is on the chain of its home, once, and on no other; a free one is on none |
| CacheEffects.EffectKeepsIndex | src/common/cache.c:117-145 | every atomic section keeps the chains acyclic, disjoint, spelled out by the deltas, and the keys unique |
| CacheEffects.EffectKeepsLru | src/common/cache.c:467-508 | every atomic section keeps the link fields spelling out one duplicate-free list, with -2 marking exactly the absent buckets |
| CacheEffects.EffectOnMap | src/common/cache.c:242-268 | every atomic section does to the finite map of the table what it should: insertion, deletion, an update of one entry, or nothing |
| CacheCost.EffectOnExcess | src/common/cache.c:802-814 | the balance between cache->cost and the stored costs moves only when a bucket is unlinked and when a cost is given back |
| Cache.Cache.constructor | src/common/cache.c:327-376 | all buckets blank, an empty map, an empty list, cost 0, the least powers of two large enough for the capacity and the threads; at most 2^15 buckets exactly if neither needs more, and then the cache is consistent |
| Cache.Cache.LruRemove | src/common/cache.c:467-482 | the pointer surgery deletes the bucket from the list and leaves every other field alone |
| Cache.Cache.LruInsert | src/common/cache.c:484-508 | the pointer surgery moves the bucket to the front of the list |
| Cache.Cache.Find | src/common/cache.c:605-621 | the walk along the deltas ends, finds the bucket of the key exactly if it is stored, and knows the bucket before it |
| Cache.Cache.FindFree | src/common/cache.c:711-748 | the first free bucket forward and then backward between cache_mask and SHRT_MAX-1 away, or none |
| CacheAlone.NoRoomMeansFull | src/common/cache.c:711-752 | NULL means, in every consistent cache and for every home, that all buckets farther than cache_mask are taken, if and only if the two ends of the table are within reach of each other |
| CacheAlone.NoRoomInRun | src/common/cache.c:711-752 | a run of one caller on a new cache of 2^15 buckets that ends with NULL for home 0 while the last bucket is free |
| Cache.Cache.RemoveKey | src/common/cache.c:117-145 | the delta arithmetic makes the chain skip the bucket, blanks it and advances the time stamp of the segment |
| Cache.Cache.AddKeyToEnd | src/common/cache.c:242-268 | the bucket is filled, locked as asked, hung at the end of the chain of its home, and its cost is counted |
| Cache.Cache.Remove | src/common/cache.c:773-823 | 0 exactly for a stored unlocked key, which leaves the map, the list and the cost; otherwise nothing changes |
| Cache.Cache.ReadTestget | src/common/cache.c:592-624 | a payload exactly for a stored key that is not write locked, if the segment lock is free, with one more reader and moved to the front |
| Cache.Cache.ReadGet | src/common/cache.c:645-684 | one pass of the loop: collect, then wait, hand out the stored payload, or store exactly one new entry |
| Cache.Cache.LookupOrStore | src/common/cache.c:651-752 | which bucket a new key goes to, what the allocate callback decides about it, and when there is no room |
| Cache.Cache.ReadRelease | src/common/cache.c:974-1001 | one reader less, nothing else changes |
| Cache.Cache.WriteGet | src/common/cache.c:1003-1046 | the upgrade succeeds exactly for the only reader |
| Cache.Cache.WriteRelease | src/common/cache.c:1085-1110 | one writer less, list and cost unchanged |
| Cache.Cache.Realloc | src/common/cache.c:1048-1083 | the payload and cost of the entry are replaced, and the total cost follows |
| Cache.Cache.RemoveBucket | src/common/cache.c:756-771 | evicts what the bucket stores, if it is unlocked |
| Cache.Cache.Gc | src/common/cache.c:898-972 | ends, answers truly whether the cache is still too full, and leaves what Collected says |
| Cache.Cache.Has | src/common/cache.c:400-423 | undisturbed, it answers whether the key is stored |
| Cache.Cache.ForAll | src/common/cache.c:528-551 | visits the stored keys once each, from the most to the least recently used: all of them if process never objects, else up to the first objection, which is returned |
| CacheSequential.KeyOrderIsPermutation | src/common/cache.c:528-551 | between operations of one caller the list names every stored key exactly once |
| CacheSequential.EvictKeepsSettled | src/common/cache.c:802-816 | a removal takes the key off the map, the bucket off the list without reordering the rest, and its cost off the total |
| CacheSequential.HitKeepsSettled | src/common/cache.c:660-670 | a hit adds a reader and moves the entry to the front |
| CacheSequential.HitIsMostRecent | src/common/cache.c:484-508 | the list is one of last use: after a hit the entry is first, and the others keep their order |
| CacheSequential.StoreKeepsSettled | src/common/cache.c:719-727 | a new entry is first in the list, has one reader, and its cost is counted |
| CacheSequential.VictimIsLeastRecent | src/common/cache.c:921-958 | the entry a collection evicts is the least recently used unlocked one among the first 2^segment_shift + 1 |
| CacheSequential.GcEvictsOne | src/common/cache.c:898-972 | a collection evicts at most one entry, which nobody holds |
| CacheSequential.GcMeetsRatio | src/common/cache.c:921-971 | after a call the fill ratio is met if and only if it was met before or the one victim makes the difference |
| CacheSequential.RepeatedGcEnds | src/common/cache.c:898-972 | calling again and again ends, after as many calls as there are entries, with the ratio met or every entry in reach of the walk locked; what is locked stays, what stays is unchanged |
| CacheAlone.GcMissesRatio | src/common/cache.h:95-98 | one caller reads and releases two keys; both entries are unlocked, removing both would meet the ratio, one call does not |
| CacheAlone.WaitingEnds | src/common/cache.c:645-684 | after more waiting passes than there were entries, the key was write locked from the start, or the cache is too full with everything in reach locked, and then every further pass waits and changes nothing |
| CacheSafety.StepIsFit | src/common/cache.c:154-201 | for clients that release what they hold and upgrade only what they hold, every step finds the section it is about to run possible and the asserts in it true |
| CacheSafety.StepKeepsInv | src/common/cache.c:592-823 | every atomic step of every thread keeps index, list, locks and cost consistent |
| CacheRuns.RunsAreSafe | src/common/cache.c:592-1110 | the invariant holds in every state of every interleaving of any number of threads |
| CacheRuns.LockProtocol | src/common/cache.c:154-201 | in every run: no assert fails, readers are exactly the outstanding handles, a writer holds the only handle, a held entry is stored |
| CacheRuns.HeldPayloadStays | src/common/cache.c:794-801 | no step of another thread removes an entry that a thread holds or changes its payload |
| CacheRuns.CostIsConserved | src/common/cache.c:802-814 | in every run cache->cost is the cost of the stored entries plus that of removals which have not given theirs back yet |
| CacheRuns.ReaderSawRoom | src/common/cache.c:645-652 | in every interleaving a reader that is past dt_cache_gc has seen the cost at or below 0.8 of the quota during this very call, with its last look |
| CacheRuns.QuotaBound | src/common/cache.c:645-728 | in every run of T threads whose allocations cost at most cmax, and whose reallocations do not raise a cost, the cost is at most 0.8 of the quota plus T * cmax |
| CacheRuns.GcAnswersTruly | src/common/cache.c:921-971 | in every interleaving a thread that is told 0 by dt_cache_gc has seen the cost at or below the ratio it asked for, and one that is told 1 above, with its last look during this very call (ToldOneHasWalked: and after its whole walk) |
| CacheRuns.GcTerminates | src/common/cache.c:898-972 | whatever the other threads do, every step inside dt_cache_gc brings its end nearer |
| CacheSections.GetAnswers | src/common/cache.c:651-684 | among any other threads: a reader that finds the key unlocked is given its payload and counted, one that finds it write locked goes to wait, one that does not find it stores what the callback has answered in the first free bucket, and is given that, or is given NULL |
| CacheSections.TestAnswers | src/common/cache.c:592-624 | the stored payload and one more reader exactly if the segment is free and the entry is stored and not write locked, else NULL and no change |
| CacheSections.UpgradeAnswers | src/common/cache.c:1003-1046 | the entry is still there; its payload and the write lock exactly if the caller is the only reader, else no change |
| CacheSections.HolderActs | src/common/cache.c:974-1110 | releasing a read lock, releasing a write lock and realloc change the one entry and the handles of the caller as they should, and cost by the difference |
| CacheSections.RemoveAnswers | src/common/cache.c:773-801 | a removal takes exactly a key that is stored and that nobody has locked off the map, else it changes nothing |
| CacheSections.RemovalGoesOn | src/common/cache.c:804-814 | what follows takes that bucket off the list and gives back the cost that the entry had |
| CacheSections.FrontAnswers | src/common/cache.c:484-526 | a lookup ends with its bucket in front of all others, which keep their order |
| CacheSections.ReturnsPayload | src/common/cache.c:592-684 | in every run the payload that a lookup is about to return is stored under the key asked for at that moment, whatever others have done since the handle was taken |
| CacheWalk.GcHasWalked | src/common/cache.c:921-958 | in every interleaving a thread that is about to look a last time has walked, in this call, from the least recently used entry to the end of the list or through 2^segment_shift + 1 rounds; in each it met a free bucket, or removed the key that it saw there, or found that key locked or no longer stored |
| CacheWalk.ToldOneHasWalked | src/common/cache.c:898-972 | whoever is told 1 by dt_cache_gc has walked so, and looked once more |
| CacheRefinement.LoneCallsAreOperations | src/common/cache.c:400-1110 | a thread that takes all the steps, from any call in a settled cache to its answer, leaves exactly the state and is told exactly the answer that class Cache promises: collections, lookups, stores, upgrades, releases, removals and queries |
| CacheRefinement.CollectsAlone | src/common/cache.c:898-972 | and from every settled cache a lone dt_cache_gc gets there in a bounded number of steps: the one victim is evicted, and the answer says whether that was enough |
| CacheRefinement.AsksAlone | src/common/cache.c:400-423 | a lone dt_cache_contains ends, after three steps for each bucket of the chain and five more at most, and answers whether the key is stored |
| CacheSegments.Apart | src/common/cache.c:711-748 | with one segment, or a cache line distance that spans all but one, no bucket is in reach of two segments |
| CacheSegments.SplitRunsAreWhole | src/common/cache.c:645-752 | then every run in which search and filling are two steps under the segment lock is, with the searches left out, a run in which the store is one step, so that all that is proved about those holds |
| CacheSegments.FilledTwice | src/common/cache.c:711-728 | otherwise there is a run on a new cache in which two readers fill the same bucket, and an entry that has been handed out is not stored any more |
| CacheSegments.SegmentLocksProtectIff | src/common/cache.c:645-752 | what has been handed out stays stored in every run if and only if there is one segment, or the cache line distance spans all but one segment, or all but the farthest buckets in reach |
| CacheScan.EffectOnChain | src/common/cache.c:117-145 | a chain loses a bucket only together with an advance of the time stamp of its segment |
| CacheScan.ScanInvariant | src/common/cache.c:400-423 | as long as the time stamp is the one it has read, the scanner is on the chain, or has seen the key absent at some instant of the call |
| CacheScan.ContainsIsLinearizable | src/common/cache.c:400-423 | under any interleaving, 1 is answered only if the key was in the table at some instant of the call, 0 only if it was absent at some instant |
| Mipmap.KeyRoundTrip | src/common/mipmap_cache.c:113-130 | keys and pairs of image and size correspond one to one, and no size in use gives the key of an empty bucket |
| Mipmap.KeysInOrder | src/common/mipmap_cache.c:113-118 | the keys of one size follow each other like the images, from image 1 on, and each size has 2^29 of them |
| Mipmap.MStepKeepsMInv | src/common/mipmap_cache.c:582-715 | every step of every mipmap client keeps: a flag is up exactly while one client has to generate the buffer, and buckets own live memory, each its own |
| Mipmap.MRunsAreSafe | src/common/mipmap_cache.c:582-715 | the same in every state of every run of mipmap clients, with an allocator that may hand out any address that is free |
| Mipmap.PayloadsAreLive | src/common/mipmap_cache.c:373-415 | in every run the payloads that the cache records, of occupied and of free buckets, are live and distinct, but for those that a loader has freed and not yet replaced |
| Mipmap.HeldBuffersAreFinished | src/common/mipmap_cache.c:636-700 | whoever holds a buffer and does not have to generate it has live memory that has been generated exactly once since it became resident |
| Mipmap.OnlyFinishedBuffersAreHandedOut | src/common/mipmap_cache.c:591-715 | so has whoever is handed a buffer, by TESTLOCK or BLOCKING |
| Mipmap.BufferIsHandedOut | src/common/mipmap_cache.c:591-715 | in every run a client whose lookup the cache has answered with a payload hands out a buffer of that key after at most six more steps of its own, whatever the others do |
| Mipmap.LookupCanProceed | src/common/mipmap_cache.c:591-715 | and it is never stuck on the way |
| Mipmap.GenerateFlagMeansWriteLocked | src/common/mipmap_cache.c:356-371 | a raised flag belongs to an entry write locked by exactly one client, the one that generates it; no client and no callback reads or writes freed memory |
| JobSlots.Control.constructor | src/control/control.c:347-350 | all slots idle, none queued |
| JobSlots.Control.AddJob | src/control/control.c:690-729 | -1 exactly if an equal job is queued or no slot is idle, and then nothing changes; otherwise one slot moves from the idle to the queued stack with the job in it |
| JobSlots.Control.TakeJob | src/control/control.c:630-643 | the top of the queued stack, or -1 if it is empty |
| JobSlots.Control.ReturnSlot | src/control/control.c:666-669 | the slot is pushed on the idle stack |
| JobSlots.Control.ReviveJob | src/control/control.c:731-757 | -1 exactly if no queued job is equal; otherwise the slot answered holds an equal job and is on top now |
| JobSlots.WaitingIsStack | src/control/control.c:690-729 | the waiting jobs are a stack: adding pushes, or does nothing if it is refused, taking pops, no other waiting job is touched |
| JobSlots.RevivePermutes | src/control/control.c:738-749 | reviving loses no waiting job and makes none up, for any test of equality |
| JobSlots.ReviveOne | src/control/control.c:738-749 | with one equal job, it goes on top and the others keep their order, although the loop moves elements while it runs over them |
| JobSlots.ReviveKeepsOthers | src/control/control.c:738-749 | whatever counts as equal, reviving keeps the other jobs in their order |
| JobSlots.ReviveSkips | src/control/control.c:738-749 | of three equal jobs the second ends up last, the first in the middle, and the third is revived |
| JobSlots.StepKeepsPartition | src/control/control.c:630-757 | every critical section of every adder and worker keeps each slot in exactly one place and fails no assert |
| JobSlots.SlotsAreSafe | src/control/control.c:347-350 | in every interleaving idle, queued and held slots partition 0..29, no slot is held twice, and the assert before the push holds whatever comes next |
| JobSlots.RunningJobStays | src/control/control.c:645-669 | nobody overwrites the job that a worker is running |
| JobSlots.QueuedJobStays | src/control/control.c:630-757 | no critical section overwrites a job that waits, and only a worker takes it off the queue |
| JobSlots.QueuedJobIsKept | src/control/control.c:630-757 | in every run a job that waits stays in its slot and in the queue until that slot is taken |
| JobSlots.AddedRunsNext | src/control/control.c:630-729 | the job that was added last is the next that any free worker takes |
| JobSlots.RevivedRunsNext | src/control/control.c:630-757 | so is a job that was revived |
| JobSlots.ReturnedIsIdle | src/control/control.c:666-669 | the slot of a job that has run is idle again, and the worker free |
| OpenclEvents.EventList.GetSlot | src/common/opencl.c:812-892 | a slot with the zero event in it, reused or new, and with the name cut to the length there is room for, every other tag untouched; or NULL, and no change, exactly if memory is needed and not to be had |
| OpenclEvents.EventList.Grow | src/common/opencl.c:857-879 | growth preserves every event and every tag and adds blank tags |
| OpenclEvents.EventList.WaitFor | src/common/opencl.c:926-959 | drops an unconsumed last slot and waits for exactly the unconsolidated events |
| OpenclEvents.EventList.Flush | src/common/opencl.c:962-1037 | waits, then consolidates every event in order and releases it; returns the summary |
| OpenclEvents.EventList.Reset | src/common/opencl.c:895-923 | releases the unconsolidated rest, blanks every tag, and clears list, counters and summary, or does nothing on an empty list |
| OpenclEvents.SlotMeans | src/common/opencl.c:812-892 | asking for a slot hands one out, with its name, and leaves all other tags alone, or changes nothing |
| OpenclEvents.FlushTells | src/common/opencl.c:983-1024 | after a flush the tag of every event that it consolidated has the return value and the duration that the driver gives for it, and the count of lost events is what had no times |
| OpenclEvents.NameIsKept | src/common/opencl.c:812-1037 | in every run the tag of a slot keeps the name it was handed out with, however the list grows, until the slot is handed out again or the list is reset |
| OpenclEvents.WaitKeeps | src/common/opencl.c:926-959 | a wait covers all handles that have been stored and not yet released, and nothing else |
| OpenclEvents.CallKeepsInv | src/common/opencl.c:812-1037 | every call keeps consolidated <= numevents <= maxevents, only the last slot unconsumed, and the balance of handles |
| OpenclEvents.SummaryIsLastFailure | src/common/opencl.c:983-1024 | the loop of a flush leaves as summary the status of the last of its events that is known to have failed, or the earlier summary if none has |
| OpenclEvents.FlushReturnsLastFailure | src/common/opencl.c:962-1037 | in every run a flush returns the status of the last event since the last reset that is known to have failed, or CL_COMPLETE |
| OpenclEvents.EventsAreReleasedOnce | src/common/opencl.c:895-1037 | in every run, right after a flush or a reset every handle the driver ever stored has been released exactly once |
| OpenclEvents.EventList.Enqueue | src/common/opencl.c:812-892 | the driver stores the handle of the command in the slot that was handed out last |
| OpenclEvents.ZeroIsReleasedByResetOnly | src/common/opencl.c:907-911 | a call passes one more zero event to clReleaseEvent exactly if it is a direct reset with an unconsumed last slot |
| OpenclEvents.ZeroIsReleasedIff | src/common/opencl.c:895-923 | the zero event is never released in a run if and only if no direct reset meets an unconsumed last slot |
| OpenclEvents.ZeroIsReleasedInRun | src/common/opencl.c:895-923 | it happens: a slot is handed out and the list is reset |
| OpenclEvents.ResetClearsLost | src/common/opencl.c:895-923 | after a reset the count of lost events is 0 exactly if it was 0 or the list was not empty |
| OpenclEvents.FlushClearsLost | src/common/opencl.c:962-1037 | after a flush with reset the count is 0 exactly if the list was not a single unconsumed slot, and, if it was empty, the count was 0 |
| OpenclEvents.LostCountSurvives | src/common/opencl.c:895-1037 | it happens: a slot is handed out, flushed with reset and reset, and the count is still 1 |
| Sfmt.RecursionsAgree | src/common/points.h:418-434 | the vector instructions and the portable code at lines 726-742 compute the same recursion, bit by bit |
| Sfmt.StreamGoesOn | src/common/points.h:440-462 | the sequence that the recursion defines continues unchanged from any N of its consecutive terms |
| Sfmt.BlocksFollowStream | src/common/points.h:440-462 | m in-place block generations leave the terms from N*m on |
| Sfmt.NumbersSpellTerms | src/common/points.h:859-871 | the 32 bit numbers of the stream are the quarters of the terms, the lowest first |
| Sfmt.ArrayIsBlocks | src/common/points.h:471-516 | what the array fill writes at place k is what repeated block generation leaves at k modulo N |
| Sfmt.Generator.GenRandAll | src/common/points.h:440-462 | overwriting the state in place yields the next N terms |
| Sfmt.Generator.GenRandArray | src/common/points.h:471-516 | for every size from N on: the array holds the next terms, and the state is left as the last N of them |
| Sfmt.Generator.GenRand32 | src/common/points.h:859-871 | the next number of the stream, after which exactly the rest of the stream is left |
| Sfmt.Generator.GenRand64 | src/common/points.h:880-906 | the next two numbers of the stream, low half first |
| Sfmt.Generator.FillArray32 | src/common/points.h:934-943 | the numbers that gen_rand32 would return from the next block on, and the same stream afterwards |
| Sfmt.InnerIsParity | src/common/points.h:788-803 | folding the masked lanes computes the parity of all 128 masked bits |
| Sfmt.Generator.PeriodCertification | src/common/points.h:788-818 | the check holds afterwards, for any parity vector that is not zero; the lowest masked bit is flipped exactly if it did not hold before |
| Spline.D3NpFs | src/common/curve_tools.c:97-135 | NULL exactly for a zero on the diagonal; otherwise an exact solution of the original system, exactly if no pivot vanishes |
| Spline.SolvesFrom | src/common/curve_tools.c:120-133 | elimination neither loses nor gains solutions |
| Spline.SolutionIsUnique | src/common/curve_tools.c:97-135 | with no zero pivot there is only one solution |
| Spline.SystemMeansSpline | src/common/curve_tools.c:284-345 | the equations hold exactly if the curve is twice continuously differentiable and meets both boundary conditions |
| Spline.SplineSystemIsRegular | src/common/curve_tools.c:284-368 | for strictly increasing knots every elimination pivot is positive, for all nine pairs of boundary conditions but the one the source treats apart |
| Spline.SplineCubicSetInternal | src/common/curve_tools.c:248-376 | NULL exactly for bad knots or unknown boundary kinds; otherwise the second derivatives of a spline |
| Spline.SplineCubicSet | src/common/curve_tools.c:383-386 | the natural spline: both end curvatures vanish |
| Spline.SplineIsUnique | src/common/curve_tools.c:248-376 | the specification has one solution only, except for two knots with quadratics at both ends |
| Spline.EndsOfPiece | src/common/curve_tools.c:724-736 | a piece meets both its knots, and its derivatives at the knots are what the system is about |
| Spline.DerivativeIsSlope | src/common/curve_tools.c:731-736 | the derivative used here is the derivative |
| Spline.SplineCubicVal | src/common/curve_tools.c:697-739 | evaluates the piece of the one interval that holds the argument, extrapolating at the ends, and passes through every knot |
| Rle.WriteBytesRle | src/common/imageio_rgbe.c:276-331 | ends, and what it emits decodes to the data and is used up exactly, whatever follows in the file; it is a sequence of runs and literal stretches, and no stretch contains four equal bytes in a row |
| Rle.DecodeSplits | src/common/imageio_rgbe.c:427-468 | decoding is sequential |
| Rle.DecodeMeans | src/common/imageio_rgbe.c:424-468 | any input starts with runs and literal stretches, whose data it decodes to, up to the end of the channel or to the first that is cut off, of length zero or too long, which is the error |
| Rle.ReadChunk | src/common/imageio_rgbe.c:428-467 | one run or literal stretch, never beyond the end of the channel |
| Rle.ReadChannel | src/common/imageio_rgbe.c:424-468 | on any input: the channel or the error that the encoding stands for, and no byte outside the channel written |
| Rle.WriteScanline | src/common/imageio_rgbe.c:350-380 | the four header bytes and four channels |
| Rle.ReadScanline | src/common/imageio_rgbe.c:398-469 | the four channels, or a read error for a short header, or not run length encoded exactly if the first bytes are not 2, 2 and one below 128, or a format error for another width, or the error of a channel |
| Rle.ScanlineMeans | src/common/imageio_rgbe.c:398-469 | what can be read as a scanline is the header with the width and four channels of runs and stretches, one after the other |
| Rle.WritePixelsRle | src/common/imageio_rgbe.c:333-383 | the code of all scanlines decodes to the data and is used up exactly, whatever follows in the file |
| Rle.ReadPixelsRle | src/common/imageio_rgbe.c:385-484 | on any input: the scanlines that it decodes to, each behind the one before, and where they end, or the first error |
| Rle.RoundTrip | src/common/imageio_rgbe.c:333-484 | for every image of an encodable width, what was written encodes it, and reading that, with anything behind it, returns the image and stops right behind the code |
| ImageCompression.LumaBitsRoundTrip | src/common/image_compression.c:53-57 | a luma code survives the way through the float |
| ImageCompression.LumaCodeMeans | src/common/image_compression.c:106-110 | between 2^-15 and 2^16 the code counts the floats in steps of 2^13; outside, the exponent stands still and the code follows the mantissa |
| ImageCompression.LumaCodesInOrder | src/common/image_compression.c:106-110 | of two lumas the greater has the greater or the same code, unless both are dark, or both bright, enough for one exponent and the mantissas are in the other order |
| ImageCompression.DarkerHasGreaterCode | src/common/image_compression.c:106-110 | the float just below 2^-15 has the code 1023, and 2^-15 the code 0 |
| ImageCompression.BlockLayout | src/common/image_compression.c:46-68 | a block is one number of 128 bits: five bits of exponent, three for the zeroes, sixteen luma codes of four bits, and red and blue of each quad in turn, seven bits each |
| ImageCompression.CountZeroes | src/common/image_compression.c:128-129 | leading zeroes of 15 bits, seven at most |
| ImageCompression.ZeroesAreLeading | src/common/image_compression.c:128-130 | the count is such that the largest difference just fits the bits that are left, down to eight |
| ImageCompression.BlockSurvives | src/common/image_compression.c:118-148 | bias, zero count and all eight chroma codes come back exactly, luma codes close |
| ImageCompression.LumaSurvives | src/common/image_compression.c:130-139 | a luma code comes back within 2^shift, within 2^(shift-1) if it was not clamped, for shift = 11 - n_zeroes |
| ImageCompression.ReadLuma | src/common/image_compression.c:45-52 | no block of bytes at all makes a luma code leave its 16 bits |
| ImageCompression.Collect | src/common/image_compression.c:91-116 | visiting quad by quad fills every place of the block once and finds the least luma |
| ImageCompression.CompressBlock | src/common/image_compression.c:117-148 | the 16 bytes of the block, and no other byte |
| ImageCompression.Compress | src/common/image_compression.c:84-151 | every block of the image, in order |
| ImageCompression.Uncompress | src/common/image_compression.c:32-82 | every pixel shows what its place in its block says |
| ImageCompression.PixelSurvives | src/common/image_compression.c:32-151 | every pixel of every image whose sides are multiples of four: exact chroma, luma within 2^shift, and within half of that if it was not clamped |
| Hsl.RgbRoundTrip | src/common/colorspaces.c:791-840 | every colour in the unit cube survives, greys and ties included, and the hue is below 1 |
| Hsl.HslRoundTrip | src/common/colorspaces.c:791-840 | and so does every hue, saturation and lightness of a colour that has a hue |
| Hsl.HslMeans | src/common/colorspaces.c:791-818 | lightness is the middle of the extreme channels, saturation their distance relative to the largest possible, hue the place between red, yellow, green, cyan, blue and magenta; a grey has hue and saturation 0 |
| Orientation.WritePosIsBijection | src/common/imageio.c:202-216 | for all eight orientations, pixels and output places correspond one to one |
| Orientation.WalkIsWritePos | src/common/imageio.c:80-109 | the pointer walk visits the places of dt_imageio_write_pos with the bits 1 and 2 exchanged unless bit 4 is set |
| Orientation.WalkAgrees | src/common/imageio.c:68-216 | the two agree on a whole image if and only if bit 4 is set, the bits are equal, or there is at most one pixel |
| Orientation.WalkFor | src/common/imageio.c:80-109 | by the number of the orientation: 1 mirrors columns, 2 rows, 4 turns rows into columns, the others combine these |
| Orientation.WritePosFor | src/common/imageio.c:202-216 | dt_imageio_write_pos likewise, with 1 and 2 exchanged |
| Orientation.FlipBuffers | src/common/imageio.c:68-110 | every pixel of the input lands at its place, none is overwritten and nothing else is touched, for any size the walk starts from that keeps it inside the output; from the image's own size that place is the one that the number of the orientation says |
| Orientation.FullSizeFits | src/common/imageio.c:68-110 | from the image's own size the walk stays inside an output of just that size, for all eight orientations |

## Left out

- Atomicity: `CacheSegments` splits the store into search and filling; every other segment-locked section is one atomic
  step, removal included, which blanks a bucket before it takes it off its chain. Spin locks, memory ordering and torn
  reads inside a section are not modelled.
- Liveness: sleeping, `select` and `sched_yield` are retries of a step; for interleavings safety is claimed, and that
  every collection ends, not that every reader gets its turn.
- LRU membership under interleaving: the source accepts that a bucket is reused between unlink and list cleanup, so
  that the list holds exactly the stored entries is claimed for one caller at a time; that it is well formed, always.
- Tables of more than 2^15 buckets: `DeltasFitIff` says why deltas break there. Time stamps and costs do not wrap.
- Cache.Cache.constructor: consistency is promised up to 2^15 buckets, nothing beyond 2^30, where loop counters overflow; it takes the number of buckets per cache line instead of dividing by the size of a bucket, which depends on the compiler.
- Cache.Cache.ReadGet: one pass of the retry loop, because alone in the cache a wait can be forever; `WaitingEnds` says when, and CacheProtocol has the loop.
- Cache.Cache.WriteGet: one try of the retry loop, which alone in the cache would be repeated forever; CacheProtocol has the loop.
- CacheRefinement.LoneCallsAreOperations: a try for a segment lock never fails, since nobody else is at work; a pass of `dt_cache_read_get` that waits counts as answered, and a `dt_cache_write_get` that waits for other readers never ends.
- CacheRuns.LockProtocol: clients never hold more than MAX_READ handles together, the bound that the source asserts.
- Callbacks: `allocate` is any function of key and payload, `process` any function; `cleanup` does not touch the cache and is left out.
- `optimize_cacheline_use` and the branch of `dt_cache_read_get` for it: switched off by `dt_cache_init`.
- Mipmap.MRunsAreSafe: the payloads that `dt_cache_static_allocation` hands to the buckets are live and distinct at the start; failed allocations (with the static dead image that they leave), serialisation, image decoding, prefetch and best-effort lookups are not modelled.
- `dt_control_add_job`: the comparison of raw bytes is any test, so whether equal jobs are recognised is not claimed; the reserved workers are not modelled.
- OpenclEvents.EventList.Flush: what the driver says about an event is a function of the event; printed messages and the profiling summary are not modelled.
- Sfmt.Generator.constructor: takes the seeded words; the arithmetic of the two seeding functions is not modelled. `fill_array64` is like `fill_array32`.
- Floating point: splines and HSL conversion are over the reals, so rounding, infinities and NaN are not modelled; a zero pivot is the outcome DivisionByZero.
- Catmull-Rom and monotone Hermite splines, curve sampling and anchors.
- Rle.RoundTrip: from and to the bytes of the channels; the conversion of floats to RGBE is lossy, and files that are not run length encoded are read by other code. The encoder tests the index before it reads the element, the source after.
- ImageCompression.Collect: reads chroma codes from a plane; how floats become chroma codes is not modelled.
- ImageCompression.Compress: from luma and chroma codes on, for the same reason. Bit fields that do not overlap are put together by addition.
- ImageCompression.Uncompress: up to luma and chroma codes; how they become floats again is not modelled.
- Orientation.FlipBuffers: the bpp bytes of a pixel are one element; the float variants of the function walk alike.
- SQL-backed modules, camera control, GTK and other thin layers over foreign libraries.
